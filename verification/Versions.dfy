/**
 Comparing versions: internal/version.go. A version is a text of numbers between dots, and may
 have a suffix behind a dash.
 */
module Versions {
  import opened Bytes
  import opened Integers
  import opened Text
  import opened Wrappers

  // ---------- the order ----------

  datatype Version = Version(nums: seq<int>, hasSuffix: bool)

  /** A part that is missing counts as zero. */
  function At(nums: seq<int>, i: nat): int {
    if i < |nums| then nums[i] else 0
  }

  ghost predicate SameNums(a: seq<int>, b: seq<int>) {
    forall i: nat :: At(a, i) == At(b, i)
  }

  /** The first part in which the two differ decides. */
  ghost predicate FirstLess(a: seq<int>, b: seq<int>, k: nat) {
    At(a, k) < At(b, k) && forall i: nat :: i < k ==> At(a, i) == At(b, i)
  }

  ghost predicate Before(v: Version, w: Version) {
    || (exists k: nat :: FirstLess(v.nums, w.nums, k))
    || (SameNums(v.nums, w.nums) && v.hasSuffix && !w.hasSuffix)
  }

  ghost predicate Equal(v: Version, w: Version) {
    SameNums(v.nums, w.nums) && v.hasSuffix == w.hasSuffix
  }

  lemma BeforeIsTransitive(u: Version, v: Version, w: Version)
    requires (Before(u, v) || Equal(u, v)) && (Before(v, w) || Equal(v, w))
    ensures Before(u, w) || Equal(u, w)
    ensures Before(u, v) || Before(v, w) ==> Before(u, w)
  {
    if j: nat :| FirstLess(u.nums, v.nums, j) {
      if k: nat :| FirstLess(v.nums, w.nums, k) {
        assert FirstLess(u.nums, w.nums, if j < k then j else k);
      } else {
        assert FirstLess(u.nums, w.nums, j);
      }
    } else if k: nat :| FirstLess(v.nums, w.nums, k) {
      assert FirstLess(u.nums, w.nums, k);
    } else {
      assert SameNums(u.nums, w.nums);
    }
  }

  /** Of two versions exactly one comes first, or they are equal. */
  lemma BeforeIsTotal(v: Version, w: Version)
    ensures Before(v, w) || Equal(v, w) || Before(w, v)
    ensures !(Before(v, w) && Equal(v, w)) && !(Before(v, w) && Before(w, v)) && !(Equal(v, w) && Before(w, v))
  {
    var n := if |v.nums| > |w.nums| then |v.nums| else |w.nums|;
    var k := FirstDifference(v.nums, w.nums, 0, n);
    if k < n {
      assert FirstLess(v.nums, w.nums, k) || FirstLess(w.nums, v.nums, k);
    }
    forall i: nat, j: nat | FirstLess(v.nums, w.nums, i)
      ensures !FirstLess(w.nums, v.nums, j)
    {
    }
  }

  lemma {:induction false} FirstDifference(a: seq<int>, b: seq<int>, i: nat, n: nat) returns (k: nat)
    requires i <= n
    ensures i <= k <= n && forall j :: i <= j < k ==> At(a, j) == At(b, j)
    ensures k < n ==> At(a, k) != At(b, k)
    decreases n - i
  {
    k := i;
    if i < n && At(a, i) == At(b, i) { k := FirstDifference(a, b, i + 1, n); }
  }

  /** Trailing zeros make no difference. */
  lemma MissingPartsAreZero(v: Version)
    ensures Equal(v, v.(nums := v.nums + [0]))
  {
  }

  /** A version with a suffix comes just before the one without it: items 9 and 11 of Semantic Versioning 2.0.0. */
  lemma SuffixComesBefore(v: Version, w: Version)
    requires v.hasSuffix && !w.hasSuffix && SameNums(v.nums, w.nums)
    ensures Before(v, w)
    ensures forall u: Version :: !u.hasSuffix && Before(u, w) ==> Before(u, v)
  {
    forall u: Version | !u.hasSuffix && Before(u, w)
      ensures Before(u, v)
    {
      var k: nat :| FirstLess(u.nums, w.nums, k);
      assert FirstLess(u.nums, v.nums, k);
    }
  }

  // ---------- the code ----------

  /** Everything in front of the first dash. */
  function StripSuffix(version: string): (bool, string) {
    var i := IndexOf(version, '-');
    if i < 0 then (false, version) else (true, version[..i])
  }

  /** None is the panic on a part that is not a number. */
  function MustAtoi(s: string): Option<int> {
    var n := ParseInt(s, 10);
    if n.None? then None else Some(n.value as int)
  }

  predicate Numeric(parts: seq<string>) {
    forall i :: 0 <= i < |parts| ==> MustAtoi(parts[i]).Some?
  }

  function Parts(version: string): seq<string> {
    Split(StripSuffix(version).1, '.')
  }

  predicate NumericVersion(version: string) {
    Numeric(Parts(version))
  }

  function NumsOf(parts: seq<string>): (nums: seq<int>)
    requires Numeric(parts)
    ensures |nums| == |parts| && forall i :: 0 <= i < |parts| ==> MustAtoi(parts[i]) == Some(nums[i])
  {
    if parts == [] then [] else NumsOf(parts[..|parts| - 1]) + [MustAtoi(parts[|parts| - 1]).value]
  }

  function Parse(version: string): Version
    requires NumericVersion(version)
  {
    Version(NumsOf(Parts(version)), StripSuffix(version).0)
  }

  /** The shorter list filled up with zeros. */
  method EqualizeVersions(minV: seq<string>, maxV: seq<string>) returns (newMinV: seq<string>)
    requires |minV| <= |maxV|
    ensures |newMinV| == |maxV|
    ensures forall i :: 0 <= i < |maxV| ==> newMinV[i] == if i < |minV| then minV[i] else "0"
  {
    var a := new string[|maxV|](_ => "");
    var i := 0;
    while i < |minV|
      invariant i <= |minV|
      invariant forall k :: 0 <= k < i ==> a[k] == minV[k]
    {
      a[i] := minV[i];
      i := i + 1;
    }
    while i < |maxV|
      invariant |minV| <= i <= |maxV|
      invariant forall k :: 0 <= k < i ==> a[k] == if k < |minV| then minV[k] else "0"
    {
      a[i] := "0";
      i := i + 1;
    }
    return a[..];
  }

  lemma ZeroIsZero()
    ensures MustAtoi("0") == Some(0)
  {
    ValueAppend("", '0', 10);
    assert "" + ['0'] == "0";
  }

  function PartAt(parts: seq<string>, i: nat): string {
    if i < |parts| then parts[i] else "0"
  }

  /** The first k parts agree, and one of the next parts is not a number. */
  ghost predicate StuckAt(ls: seq<string>, rs: seq<string>, k: nat) {
    && (k < |ls| || k < |rs|)
    && Agree(ls, rs, k)
    && (MustAtoi(PartAt(ls, k)).None? || MustAtoi(PartAt(rs, k)).None?)
  }

  ghost predicate Agree(ls: seq<string>, rs: seq<string>, k: nat) {
    forall i: nat :: i < k ==> MustAtoi(PartAt(ls, i)).Some? && MustAtoi(PartAt(ls, i)) == MustAtoi(PartAt(rs, i))
  }

  /** The first k parts agree, and the next one is less on the left. */
  ghost predicate LessAt(ls: seq<string>, rs: seq<string>, k: nat) {
    && Agree(ls, rs, k)
    && MustAtoi(PartAt(ls, k)).Some? && MustAtoi(PartAt(rs, k)).Some?
    && MustAtoi(PartAt(ls, k)).value < MustAtoi(PartAt(rs, k)).value
  }

  ghost predicate AllAgree(ls: seq<string>, rs: seq<string>) {
    Agree(ls, rs, |ls|) && Agree(ls, rs, |rs|)
  }

  /** Only one of these can happen to two lists of parts. */
  lemma OneOutcome(ls: seq<string>, rs: seq<string>)
    ensures forall j: nat, k: nat :: LessAt(ls, rs, j) ==> !LessAt(rs, ls, k) && !StuckAt(ls, rs, k)
    ensures forall j: nat, k: nat :: LessAt(rs, ls, j) ==> !StuckAt(ls, rs, k)
    ensures AllAgree(ls, rs) ==> forall k: nat :: !LessAt(ls, rs, k) && !LessAt(rs, ls, k) && !StuckAt(ls, rs, k)
  {
    hide MustAtoi;
  }

  /** The part that decides, or the suffixes; None when a part that is not a number comes first. */
  ghost function Sign(left: string, right: string): Option<int> {
    if exists k: nat :: StuckAt(Parts(left), Parts(right), k) then None
    else if exists k: nat :: LessAt(Parts(left), Parts(right), k) then Some(-1)
    else if exists k: nat :: LessAt(Parts(right), Parts(left), k) then Some(1)
    else Some((if StripSuffix(right).0 then 1 else 0) - if StripSuffix(left).0 then 1 else 0)
  }

  /** None is the panic: it takes a part that is not a number behind parts that agree. */
  method CompareVersions(left: string, right: string) returns (r: Option<int>)
    ensures r == Sign(left, right)
    ensures r == None <==> exists k: nat :: StuckAt(Parts(left), Parts(right), k)
    ensures (exists k: nat :: LessAt(Parts(left), Parts(right), k)) ==> r == Some(-1)
    ensures (exists k: nat :: LessAt(Parts(right), Parts(left), k)) ==> r == Some(1)
    ensures AllAgree(Parts(left), Parts(right)) ==>
              r == Some((if StripSuffix(right).0 then 1 else 0) - if StripSuffix(left).0 then 1 else 0)
    // between numeric versions there is no panic
    ensures NumericVersion(left) && NumericVersion(right) ==>
              && r.Some?
              && (r.value < 0 <==> Before(Parse(left), Parse(right)))
              && (r.value == 0 <==> Equal(Parse(left), Parse(right)))
              && (r.value > 0 <==> Before(Parse(right), Parse(left)))
  {
    hide MustAtoi, StripSuffix, Before, Equal, Numeric, NumsOf, Parts, NumericVersion, Parse;
    var leftHasSuffix, rightHasSuffix := StripSuffix(left).0, StripSuffix(right).0;
    var leftNums, rightNums := Parts(left), Parts(right);
    if |rightNums| < |leftNums| {
      rightNums := EqualizeVersions(rightNums, leftNums);
    } else if |leftNums| < |rightNums| {
      leftNums := EqualizeVersions(leftNums, rightNums);
    }
    ghost var ls, rs := Parts(left), Parts(right);
    OneOutcome(ls, rs);
    OneOutcome(rs, ls);
    if NumericVersion(left) && NumericVersion(right) { SignIsOrder(left, right); }
    for i := 0 to |rightNums|
      invariant Agree(ls, rs, i)
    {
      assert leftNums[i] == PartAt(ls, i) && rightNums[i] == PartAt(rs, i);
      var rightNum := MustAtoi(rightNums[i]);
      if rightNum.None? {
        assert StuckAt(ls, rs, i);
        return None;
      }
      var leftNum := MustAtoi(leftNums[i]);
      if leftNum.None? {
        assert StuckAt(ls, rs, i);
        return None;
      }
      if rightNum.value < leftNum.value {
        assert LessAt(rs, ls, i);
        return Some(1);
      }
      if rightNum.value > leftNum.value {
        assert LessAt(ls, rs, i);
        return Some(-1);
      }
    }
    if leftHasSuffix {
      return Some(if rightHasSuffix then 0 else -1);
    }
    return Some(if rightHasSuffix then 1 else 0);
  }

  /** Between numeric versions the sign is that of the order. */
  lemma SignIsOrder(left: string, right: string)
    requires NumericVersion(left) && NumericVersion(right)
    ensures Sign(left, right).Some?
    ensures Sign(left, right).value < 0 <==> Before(Parse(left), Parse(right))
    ensures Sign(left, right).value == 0 <==> Equal(Parse(left), Parse(right))
    ensures Sign(left, right).value > 0 <==> Before(Parse(right), Parse(left))
  {
    hide MustAtoi, Parts, Parse, NumericVersion, StripSuffix, Before, Equal;
    var ls, rs, v, w := Parts(left), Parts(right), Parse(left), Parse(right);
    var n := if |ls| > |rs| then |ls| else |rs|;
    var k := FirstDifference(v.nums, w.nums, 0, n);
    forall i: nat
      ensures MustAtoi(PartAt(ls, i)) == Some(At(v.nums, i)) && MustAtoi(PartAt(rs, i)) == Some(At(w.nums, i))
    {
      PartsAreNums(left, i);
      PartsAreNums(right, i);
    }
    OneOutcome(ls, rs);
    OneOutcome(rs, ls);
    if k < n {
      if At(v.nums, k) < At(w.nums, k) {
        assert LessAt(ls, rs, k);
        DecidedAt(v, w, k);
      } else {
        assert LessAt(rs, ls, k);
        DecidedAt(w, v, k);
      }
    } else {
      assert AllAgree(ls, rs);
      DecidedBySuffix(left, right);
    }
  }

  /** The parts of numeric versions are the numbers to compare. */
  lemma PartsAreNums(version: string, i: nat)
    requires NumericVersion(version)
    ensures MustAtoi(PartAt(Parts(version), i)) == Some(At(Parse(version).nums, i))
  {
    ZeroIsZero();
  }

  lemma DecidedAt(v: Version, w: Version, k: nat)
    requires FirstLess(v.nums, w.nums, k)
    ensures Before(v, w) && !Before(w, v) && !Equal(v, w) && !Equal(w, v)
  {
    BeforeIsTotal(v, w);
  }

  lemma DecidedBySuffix(left: string, right: string)
    requires Agree(Parts(left), Parts(right), |Parts(left)|) && Agree(Parts(left), Parts(right), |Parts(right)|)
    ensures forall j: nat :: !StuckAt(Parts(left), Parts(right), j)
    ensures NumericVersion(left) && NumericVersion(right) ==>
              var v, w := Parse(left), Parse(right);
              && (Before(v, w) <==> StripSuffix(left).0 && !StripSuffix(right).0)
              && (Equal(v, w) <==> StripSuffix(left).0 == StripSuffix(right).0)
              && (Before(w, v) <==> StripSuffix(right).0 && !StripSuffix(left).0)
  {
    hide MustAtoi, StripSuffix, Parts, NumericVersion, NumsOf;
    if NumericVersion(left) && NumericVersion(right) {
      var v, w := Parse(left), Parse(right);
      forall i: nat
        ensures At(v.nums, i) == At(w.nums, i)
      {
        PartsAreNums(left, i);
        PartsAreNums(right, i);
        NumsAreParts(left);
        NumsAreParts(right);
      }
      BeforeIsTotal(v, w);
    }
  }

  lemma NumsAreParts(version: string)
    requires NumericVersion(version)
    ensures |Parse(version).nums| == |Parts(version)|
  {
  }

  /** What comes of comparing as far as the right version goes. */
  ghost predicate IsLooseOutcome(ls: seq<string>, rs: seq<string>, r: Option<bool>) {
    && (r == None <==> exists k: nat :: k < |rs| && StuckAt(ls, rs, k))
    && (r == Some(true) <==> Agree(ls, rs, |rs|))
  }

  /** Equal as far as the right version goes; suffixes do not count. */
  ghost predicate Loosely(v: Version, w: Version) {
    forall i: nat :: i < |w.nums| ==> At(v.nums, i) == At(w.nums, i)
  }

  /** None is the panic: it takes a part that is not a number within the length of the right version. */
  method LooselyEqual(left: string, right: string) returns (r: Option<bool>)
    ensures IsLooseOutcome(Parts(left), Parts(right), r)
    ensures NumericVersion(left) && NumericVersion(right) ==>
              r == Some(Loosely(Parse(left), Parse(right)))
  {
    hide MustAtoi, StripSuffix, Parts, NumericVersion, Parse;
    var leftNums, rightNums := Parts(left), Parts(right);
    var minNums := |rightNums|;
    if |leftNums| < minNums {
      leftNums := EqualizeVersions(leftNums, rightNums);
    }
    ghost var numeric, ls, rs := NumericVersion(left) && NumericVersion(right), Parts(left), Parts(right);
    for i := 0 to minNums
      invariant Agree(ls, rs, i)
      invariant numeric ==> forall k: nat :: k < i ==> At(Parse(left).nums, k) == At(Parse(right).nums, k)
    {
      if numeric {
        PartsAreNums(left, i);
        PartsAreNums(right, i);
      }
      assert leftNums[i] == PartAt(ls, i) && rightNums[i] == PartAt(rs, i);
      var rightNum := MustAtoi(rightNums[i]);
      if rightNum.None? {
        assert StuckAt(ls, rs, i);
        return None;
      }
      var leftNum := MustAtoi(leftNums[i]);
      if leftNum.None? {
        assert StuckAt(ls, rs, i);
        return None;
      }
      if rightNum != leftNum {
        if numeric { NumsAreParts(right); }
        return Some(false);
      }
    }
    if numeric { NumsAreParts(right); }
    return Some(true);
  }

  /** What the operators mean; None is the panic on any other operator. */
  ghost function Meaning(v: Version, operator: string, w: Version): Option<bool> {
    match operator
    case "=" => Some(Equal(v, w))
    case "!=" => Some(!Equal(v, w))
    case ">" => Some(Before(w, v))
    case ">=" => Some(Before(w, v) || Equal(v, w))
    case "<" => Some(Before(v, w))
    case "<=" => Some(Before(v, w) || Equal(v, w))
    case "~" => Some(Loosely(v, w))
    case _ => None
  }

  /** What an operator makes of the outcome of a comparison. */
  predicate Holds(operator: string, sign: int) {
    || (sign == 0 && operator in {"=", ">=", "<="})
    || (sign < 0 && operator in {"<", "<=", "!="})
    || (sign > 0 && operator in {">", ">=", "!="})
  }

  predicate IsComparison(operator: string) {
    operator in {"=", "!=", ">", ">=", "<", "<="}
  }

  /** None is the panic, on an unknown operator or on a part that is not a number and is reached. */
  method CheckVersion(left: string, operator: string, right: string) returns (r: Option<bool>)
    ensures operator != "~" && !IsComparison(operator) ==> r == None
    ensures operator == "~" ==> IsLooseOutcome(Parts(left), Parts(right), r)
    ensures IsComparison(operator) ==>
              && (r == None <==> Sign(left, right) == None)
              && (r.Some? ==> r.value == Holds(operator, Sign(left, right).value))
    ensures NumericVersion(left) && NumericVersion(right) ==> r == Meaning(Parse(left), operator, Parse(right))
  {
    hide NumericVersion, Parse, Before, Equal, Loosely;
    if operator == "~" {
      r := LooselyEqual(left, right);
      return;
    }
    if operator !in ["=", "!=", ">", ">=", "<", "<="] {
      return None;
    }
    var c := CompareVersions(left, right);
    if c.None? {
      return None;
    }
    if NumericVersion(left) && NumericVersion(right) { BeforeIsTotal(Parse(left), Parse(right)); }
    match operator {
      case "=" => return Some(c.value == 0);
      case "!=" => return Some(c.value != 0);
      case ">" => return Some(c.value > 0);
      case ">=" => return Some(c.value >= 0);
      case "<" => return Some(c.value < 0);
      case _ => return Some(c.value <= 0);
    }
  }

  /** Equal versions are loosely equal, in both directions; the converse fails, and so does symmetry. */
  lemma EqualIsLooselyEqual(v: Version, w: Version)
    ensures Equal(v, w) ==> Loosely(v, w) && Loosely(w, v)
    ensures Loosely(v, w) && Loosely(w, v) ==> SameNums(v.nums, w.nums)
  {
    if Loosely(v, w) && Loosely(w, v) {
      forall i: nat ensures At(v.nums, i) == At(w.nums, i) {}
    }
  }

  /** Loose equality can be turned around exactly when the parts it did not look at are zero. */
  lemma LooselyIsSymmetricExactly(v: Version, w: Version)
    requires Loosely(v, w)
    ensures Loosely(w, v) <==> forall i: nat :: |w.nums| <= i < |v.nums| ==> v.nums[i] == 0
    ensures Loosely(w, v) <==> SameNums(v.nums, w.nums)
  {
    EqualIsLooselyEqual(v, w);
    if Loosely(w, v) {
      forall i: nat | |w.nums| <= i < |v.nums|
        ensures v.nums[i] == 0
      {
        assert At(w.nums, i) == At(v.nums, i);
      }
    }
  }

  // ---------- versions written out ----------

  predicate Fits(nums: seq<nat>) {
    nums != [] && forall n :: n in nums ==> n <= MAX_INT64
  }

  function Decimals(nums: seq<nat>): seq<string> {
    seq(|nums|, i requires 0 <= i < |nums| => Decimal(nums[i]))
  }

  /** The numbers with dots between them. */
  function Dotted(nums: seq<nat>): string {
    Join(Decimals(nums), '.')
  }

  lemma DecimalAtoi(n: nat)
    requires n <= MAX_INT64
    ensures MustAtoi(Decimal(n)) == Some(n) && '.' !in Decimal(n) && '-' !in Decimal(n)
  {
    hide Decimal, ParseInt;
    DecimalIsRead(n);
    DecimalIs(n);
  }

  lemma {:induction false} NoDash(ps: seq<string>)
    requires forall p :: p in ps ==> '-' !in p
    ensures '-' !in Join(ps, '.')
  {
    if |ps| > 1 { NoDash(ps[1..]); }
  }

  lemma DottedParts(nums: seq<nat>)
    requires Fits(nums)
    ensures Split(Dotted(nums), '.') == Decimals(nums) && '-' !in Dotted(nums)
    ensures Numeric(Decimals(nums)) && NumsOf(Decimals(nums)) == nums
  {
    hide Decimal, Split, Join, MustAtoi, NumsOf;
    var ps := Decimals(nums);
    forall i | 0 <= i < |ps|
      ensures MustAtoi(ps[i]) == Some(nums[i]) && '.' !in ps[i] && '-' !in ps[i]
    {
      assert nums[i] in nums;
      DecimalAtoi(nums[i]);
    }
    SplitJoin(ps, '.');
    NoDash(ps);
    assert forall i :: 0 <= i < |nums| ==> NumsOf(ps)[i] == nums[i];
  }

  /** Numbers written out are read back, with or without a suffix. */
  lemma WrittenIsParsed(nums: seq<nat>, suffix: string)
    requires Fits(nums)
    ensures NumericVersion(Dotted(nums)) && Parse(Dotted(nums)) == Version(nums, false)
    ensures NumericVersion(Dotted(nums) + "-" + suffix) && Parse(Dotted(nums) + "-" + suffix) == Version(nums, true)
  {
    hide Split, Dotted, Decimals, Numeric, NumsOf, IndexOf;
    DottedParts(nums);
    var version := Dotted(nums) + ['-'] + suffix;
    IndexOfAt(Dotted(nums), '-', suffix);
    assert version[..|Dotted(nums)|] == Dotted(nums) && Dotted(nums) + "-" + suffix == version;
  }

  /**
   Of versions written out as numbers, the first numbers that differ decide: the comparison is
   less than, equal to or greater than zero as the number on the left is less, absent or greater.
   */
  lemma ComparesNumbers(a: seq<nat>, b: seq<nat>)
    requires Fits(a) && Fits(b)
    ensures Sign(Dotted(a), Dotted(b)) == Some(-1) <==>
              exists k: nat :: At(a, k) < At(b, k) && forall i: nat :: i < k ==> At(a, i) == At(b, i)
    ensures Sign(Dotted(a), Dotted(b)) == Some(1) <==>
              exists k: nat :: At(a, k) > At(b, k) && forall i: nat :: i < k ==> At(a, i) == At(b, i)
    ensures Sign(Dotted(a), Dotted(b)) == Some(0) <==> forall i: nat :: At(a, i) == At(b, i)
  {
    hide Sign, Dotted, Parse, NumericVersion;
    WrittenIsParsed(a, "");
    WrittenIsParsed(b, "");
    SignIsOrder(Dotted(a), Dotted(b));
    SignIsSmall(Dotted(a), Dotted(b));
    var v, w := Version(a, false), Version(b, false);
    assert forall k: nat :: FirstLess(a, b, k) <==>
                            At(a, k) < At(b, k) && forall i: nat :: i < k ==> At(a, i) == At(b, i);
    assert forall k: nat :: FirstLess(b, a, k) <==>
                            At(a, k) > At(b, k) && forall i: nat :: i < k ==> At(a, i) == At(b, i);
  }

  lemma SignIsSmall(left: string, right: string)
    ensures Sign(left, right).Some? ==> Sign(left, right).value in {-1, 0, 1}
  {
    hide Parts, StuckAt, LessAt;
  }

  // ---------- the operators ----------

  /** The operators compare the sign with zero. */
  lemma OperatorsAre(sign: int)
    ensures Holds("=", sign) <==> sign == 0
    ensures Holds("!=", sign) <==> sign != 0
    ensures Holds("<", sign) <==> sign < 0
    ensures Holds("<=", sign) <==> sign <= 0
    ensures Holds(">", sign) <==> sign > 0
    ensures Holds(">=", sign) <==> sign >= 0
    ensures forall operator :: Holds(operator, sign) ==> IsComparison(operator)
  {
  }

  /** Between numeric versions both ways to say what a comparison means agree. */
  lemma MeaningIsSign(left: string, operator: string, right: string)
    requires NumericVersion(left) && NumericVersion(right)
    ensures Sign(left, right).Some?
    ensures IsComparison(operator) ==>
              Meaning(Parse(left), operator, Parse(right)) == Some(Holds(operator, Sign(left, right).value))
    ensures !IsComparison(operator) && operator != "~" ==> Meaning(Parse(left), operator, Parse(right)) == None
  {
    hide Sign, Before, Equal, Parts, Parse, NumericVersion, Loosely;
    SignIsOrder(left, right);
    BeforeIsTotal(Parse(left), Parse(right));
  }

  lemma LooseMeaning(left: string, right: string, r: Option<bool>)
    requires NumericVersion(left) && NumericVersion(right)
    ensures Meaning(Parse(left), "~", Parse(right)) == Some(Loosely(Parse(left), Parse(right)))
    ensures IsLooseOutcome(Parts(left), Parts(right), r) <==> r == Some(Loosely(Parse(left), Parse(right)))
  {
    hide Before, Equal, Parts, Parse, NumericVersion, Loosely, StuckAt, Agree;
    LooselyIsAgreement(left, right);
    match r {
      case None =>
      case Some(b) => if b {} else {}
    }
  }

  lemma LooselyIsAgreement(left: string, right: string)
    requires NumericVersion(left) && NumericVersion(right)
    ensures Agree(Parts(left), Parts(right), |Parts(right)|) <==> Loosely(Parse(left), Parse(right))
    ensures forall k: nat :: !StuckAt(Parts(left), Parts(right), k)
  {
    hide MustAtoi, Parts, NumericVersion, Parse, NumsOf;
    NumsAreParts(right);
    forall i: nat
      ensures MustAtoi(PartAt(Parts(left), i)) == Some(At(Parse(left).nums, i))
      ensures MustAtoi(PartAt(Parts(right), i)) == Some(At(Parse(right).nums, i))
    {
      PartsAreNums(left, i);
      PartsAreNums(right, i);
    }
  }

  /** A version that is no longer is loosely equal exactly to those that start with its numbers. */
  lemma LooselyExactly(v: Version, w: Version)
    requires |w.nums| <= |v.nums|
    ensures Loosely(v, w) <==> w.nums <= v.nums
  {
    if Loosely(v, w) {
      assert forall i: nat :: i < |w.nums| ==> At(v.nums, i) == v.nums[i] && At(w.nums, i) == w.nums[i];
    }
  }

  // ---------- a part that is not a number ----------

  predicate BadPart(s: string) {
    '.' !in s && '-' !in s && MustAtoi(s).None?
  }

  lemma WithBadPart(nums: seq<nat>, bad: string)
    requires Fits(nums) && BadPart(bad)
    ensures Parts(Dotted(nums)) == Decimals(nums)
    ensures Parts(Dotted(nums) + "." + bad) == Decimals(nums) + [bad]
  {
    hide Decimal, Split, Join, MustAtoi, IndexOf;
    DottedParts(nums);
    var ps := Decimals(nums) + [bad];
    JoinLast(Decimals(nums), bad);
    forall p | p in ps ensures '.' !in p && '-' !in p {
      if p != bad {
        var i :| 0 <= i < |nums| && Decimals(nums)[i] == p;
        assert nums[i] in nums;
        DecimalAtoi(nums[i]);
      }
    }
    SplitJoin(ps, '.');
    NoDash(ps);
    assert IndexOf(Dotted(nums), '-') < 0 && IndexOf(Join(ps, '.'), '-') < 0;
  }

  lemma {:induction false} JoinLast(ps: seq<string>, p: string)
    requires ps != []
    ensures Join(ps + [p], '.') == Join(ps, '.') + "." + p
  {
    if |ps| > 1 {
      JoinLast(ps[1..], p);
      assert (ps + [p])[1..] == ps[1..] + [p];
    } else {
      assert (ps + [p])[1..] == [p];
    }
  }

  /**
   Behind equal numbers a part that is not a number makes a comparison panic, on either side. Loose
   equality panics on it in the right version only, and does not look at it in the left one.
   */
  lemma BadPartPanics(nums: seq<nat>, bad: string, r: Option<bool>)
    requires Fits(nums) && BadPart(bad)
    ensures Sign(Dotted(nums) + "." + bad, Dotted(nums)) == None
    ensures Sign(Dotted(nums), Dotted(nums) + "." + bad) == None
    ensures IsLooseOutcome(Parts(Dotted(nums) + "." + bad), Parts(Dotted(nums)), r) <==> r == Some(true)
    ensures IsLooseOutcome(Parts(Dotted(nums)), Parts(Dotted(nums) + "." + bad), r) <==> r == None
  {
    hide Dotted, Parts, MustAtoi, Decimal;
    WithBadPart(nums, bad);
    ZeroIsZero();
    var n, ps := |nums|, Decimals(nums);
    forall i: nat | i < n
      ensures MustAtoi(PartAt(ps, i)) == MustAtoi(PartAt(ps + [bad], i)) == Some(nums[i])
    {
      assert nums[i] in nums;
      DecimalAtoi(nums[i]);
    }
    assert MustAtoi(PartAt(ps, n)) == Some(0) && MustAtoi(PartAt(ps + [bad], n)) == None;
    assert StuckAt(ps + [bad], ps, n) && StuckAt(ps, ps + [bad], n);
    assert Agree(ps + [bad], ps, n) && !Agree(ps, ps + [bad], n + 1);
  }
}
