/**
 Positional arguments: the check of ArgsFunc in clc/cmd/command_context.go, which runs first,
 and makeKeywordArgs and convertSliceArg of clc/cmd/exec_context.go, which bind the arguments
 to their keys afterwards.
 */
module Args {
  import opened Bytes
  import opened Integers
  import opened Sequences
  import opened Text
  import opened Wrappers

  datatype ArgType = NoType | String | StringSlice | Int64 | Int64Slice | KeyValueSlice

  datatype ArgSpec = ArgSpec(key: string, title: string, typ: ArgType, min: nat, max: nat)

  datatype Error =
    | Required(title: string) | TooMany(max: nat) | Unexpected
    | OutOfRange(title: string) | RangeNotLast
    | Conversion(title: string)

  datatype Result<T> = Ok(value: T) | Err(error: Error)

  datatype Value =
    | Text(s: string) | Number(n: int) | Texts(ss: seq<string>) | Numbers(ns: seq<int>)
    | KeyValues(kvs: seq<(string, string)>)

  /** What the Add...Arg methods can add to a command. */
  predicate ValidSpec(s: ArgSpec) {
    && s.min <= s.max <= MAX_INT64 && s.typ != NoType
    && (s.typ in {String, Int64} ==> s.min == s.max == 1)
  }

  /** Only the last argument may take a range of values; ArgsFunc panics on other lists. */
  predicate ValidSpecs(specs: seq<ArgSpec>) {
    && (forall i :: 0 <= i < |specs| ==> ValidSpec(specs[i]))
    && (forall i :: 0 <= i < |specs| - 1 ==> specs[i].min == specs[i].max == 1)
  }

  // ---------- the check ----------

  /** The sum, unless it is too large for an integer. */
  function AddWithOverflow(a: nat, b: nat): (c: nat)
    requires a <= MAX_INT64 && b <= MAX_INT64
    ensures c == if a + b <= MAX_INT64 then a + b else MAX_INT64
  {
    if a > MAX_INT64 - b then MAX_INT64 else a + b
  }

  function SumMin(specs: seq<ArgSpec>): nat {
    if specs == [] then 0 else SumMin(specs[..|specs| - 1]) + specs[|specs| - 1].min
  }

  function SumMax(specs: seq<ArgSpec>): nat {
    if specs == [] then 0 else SumMax(specs[..|specs| - 1]) + specs[|specs| - 1].max
  }

  function Saturated(n: nat): (m: nat)
    ensures m <= n && m <= MAX_INT64 && (m == n || m == MAX_INT64)
  {
    if n <= MAX_INT64 then n else MAX_INT64
  }

  /** Go's addition on 64 bits, of integers that are not negative: a sum that does not fit is negative. */
  function AddWrapping(a: int, b: int): (c: int)
    requires 0 <= a <= MAX_INT64 && 0 <= b <= MAX_INT64
    ensures MIN_INT64 <= c <= MAX_INT64 && c % TWO_64 == (a + b) % TWO_64
  {
    if a + b > MAX_INT64 then a + b - TWO_64 else a + b
  }

  lemma {:induction false} SumsOfOnes(specs: seq<ArgSpec>, i: nat)
    requires ValidSpecs(specs) && i < |specs|
    ensures SumMin(specs[..i]) == SumMax(specs[..i]) == i
  {
    if i > 0 {
      SumsOfOnes(specs, i - 1);
      assert specs[..i][..i - 1] == specs[..i - 1];
    }
  }

  lemma SumsOfAll(specs: seq<ArgSpec>)
    requires ValidSpecs(specs) && specs != []
    ensures SumMin(specs) == |specs| - 1 + specs[|specs| - 1].min
    ensures SumMax(specs) == |specs| - 1 + specs[|specs| - 1].max
    ensures 0 <= specs[|specs| - 1].min <= specs[|specs| - 1].max <= MAX_INT64
  {
    SumsOfOnes(specs, |specs| - 1);
    assert ValidSpec(specs[|specs| - 1]);
  }

  lemma NoSums()
    ensures SumMin([]) == SumMax([]) == 0
  {
  }

  lemma SumsNext(specs: seq<ArgSpec>, i: nat)
    requires ValidSpecs(specs) && i < |specs|
    ensures SumMin(specs[..i + 1]) == SumMin(specs[..i]) + specs[i].min
    ensures SumMax(specs[..i + 1]) == SumMax(specs[..i]) + specs[i].max
    ensures 0 <= specs[i].min <= specs[i].max <= MAX_INT64 && (i < |specs| - 1 ==> specs[i].min == specs[i].max == 1)
  {
    assert specs[..i + 1][..i] == specs[..i];
    assert ValidSpec(specs[i]);
  }

  /**
   What the check accepts: the counts between the sums of the limits. When the least counts do
   not sum to an integer, the source's sum is negative, and all that is left of the check is
   that every argument but the last is there.
   */
  predicate Accepted(specs: seq<ArgSpec>, args: seq<string>) {
    && |args| <= MAX_INT64
    && if SumMin(specs) <= MAX_INT64 then SumMin(specs) <= |args| <= SumMax(specs) else |specs| - 1 <= |args|
  }

  /** The check; maxima are added with saturation, minima are not. The length of a slice is an int. */
  method CheckArgs(specs: seq<ArgSpec>, args: seq<string>) returns (r: Result<()>)
    requires ValidSpecs(specs) && |specs| <= MAX_INT64 && |args| <= MAX_INT64
    ensures r.Ok? <==> Accepted(specs, args)
    ensures r.Err? && |args| < SumMin(specs) ==>
              exists k :: && 0 <= k < |specs| && r.error == Required(specs[k].title)
                          && SumMin(specs[..k]) <= |args| < SumMin(specs[..k + 1])
    ensures r.Err? && |args| > SumMax(specs) ==> r.error == TooMany(SumMax(specs))
  {
    var minCnt: int, maxCnt: nat := 0, 0;
    if specs != [] { SumsOfAll(specs); }
    NoSums();
    hide ValidSpec, SumMin, SumMax;
    for i := 0 to |specs|
      invariant maxCnt == Saturated(SumMax(specs[..i]))
      invariant i < |specs| ==> minCnt == SumMin(specs[..i]) == i <= |args|
      invariant i == |specs| > 0 ==> |specs| - 1 <= |args| && (SumMin(specs) <= |args| || SumMin(specs) > MAX_INT64)
    {
      assert i == |specs| - 1 ==> specs[..i + 1] == specs;
      SumsNext(specs, i);
      SumsOfOnes(specs, i);
      var s := specs[i];
      if |args| < AddWrapping(minCnt, s.min) {
        assert SumMin(specs[..i]) <= |args| < SumMin(specs[..i + 1]);
        return Err(Required(s.title));
      }
      minCnt := AddWrapping(minCnt, s.min);
      maxCnt := AddWithOverflow(maxCnt, s.max);
    }
    assert specs[..|specs|] == specs;
    if |args| > maxCnt {
      return Err(TooMany(maxCnt));
    }
    return Ok(());
  }

  // ---------- converting values ----------

  function ConvertArg(value: string, typ: ArgType): Option<Value> {
    match typ
    case String => Some(Text(value))
    case Int64 =>
      var n := ParseInt(value, 10);
      if n.Some? then Some(Number(n.value)) else None
    case _ => None
  }

  function ParseKeyValue(kv: string): (string, string) {
    var i := IndexOf(kv, '=');
    if i < 0 then ("", "") else (TrimSpace(kv[..i]), TrimSpace(kv[i + 1..]))
  }

  /** An entry without a key stays empty. */
  function ToKeyValue(kv: string): (string, string) {
    if ParseKeyValue(kv).0 == "" then ("", "") else ParseKeyValue(kv)
  }

  predicate AllNumbers(values: seq<string>) {
    forall i :: 0 <= i < |values| ==> ParseInt(values[i], 10).Some?
  }

  function SliceOf(values: seq<string>, typ: ArgType): Option<Value> {
    match typ
    case StringSlice => Some(Texts(values))
    case Int64Slice =>
      if AllNumbers(values) then
        Some(Numbers(seq(|values|, i requires 0 <= i < |values| && ParseInt(values[i], 10).Some? =>
                                     ParseInt(values[i], 10).value as int)))
      else None
    case KeyValueSlice => Some(KeyValues(seq(|values|, i requires 0 <= i < |values| => ToKeyValue(values[i]))))
    case _ => None
  }

  method ConvertSliceArg(values: seq<string>, typ: ArgType) returns (r: Option<Value>)
    ensures r == SliceOf(values, typ)
  {
    hide ParseInt, ParseKeyValue;
    match typ {
      case StringSlice => return Some(Texts(values));
      case Int64Slice =>
        var args: seq<int> := [];
        for i := 0 to |values|
          invariant AllNumbers(values[..i])
          invariant |args| == i && forall k :: 0 <= k < i ==> Some(args[k]) == ParseInt(values[k], 10)
        {
          var v := ParseInt(values[i], 10);
          if v.None? {
            return None;
          }
          args := args + [v.value];
        }
        assert values[..|values|] == values;
        assert Numbers(args) == SliceOf(values, typ).value;
        return Some(Numbers(args));
      case KeyValueSlice =>
        var args: seq<(string, string)> := [];
        for i := 0 to |values|
          invariant |args| == i && forall k :: 0 <= k < i ==> args[k] == ToKeyValue(values[k])
        {
          var (k, v) := ParseKeyValue(values[i]);
          if k == "" {
            args := args + [("", "")];
            continue;
          }
          args := args + [(k, v)];
        }
        assert KeyValues(args) == SliceOf(values, typ).value by {
          assert args == seq(|values|, i requires 0 <= i < |values| => ToKeyValue(values[i]));
        }
        return Some(KeyValues(args));
      case _ => return None;
    }
  }

  // ---------- binding the arguments ----------

  type Keywords = map<string, Value>

  /** The loop of makeKeywordArgs from the i-th spec on. */
  function Bind(args: seq<string>, specs: seq<ArgSpec>, i: nat, kw: Keywords): Result<Keywords>
    requires i <= |specs|
    decreases |specs| - i
  {
    if i == |specs| then
      if |args| > Saturated(SumMax(specs)) then Err(Unexpected) else Ok(kw)
    else
      var s := specs[i];
      if s.max > s.min then
        if i < |specs| - 1 then Err(RangeNotLast)
        else if |args| < i + s.min || |args| > i + s.max then Err(OutOfRange(s.title))
        else if SliceOf(args[i..], s.typ).None? then Err(Conversion(s.title))
        else if |args| > Saturated(SumMax(specs)) then Err(Unexpected)
        else Ok(kw[s.key := SliceOf(args[i..], s.typ).value])
      else if i >= |args| then Err(Required(s.title))
      else if ConvertArg(args[i], s.typ).None? then Err(Conversion(s.title))
      else Bind(args, specs, i + 1, kw[s.key := ConvertArg(args[i], s.typ).value])
  }

  method MakeKeywordArgs(args: seq<string>, argSpecs: seq<ArgSpec>) returns (r: Result<Keywords>)
    requires forall i :: 0 <= i < |argSpecs| ==> argSpecs[i].max <= MAX_INT64
    ensures r == Bind(args, argSpecs, 0, map[])
  {
    hide ConvertArg, SliceOf;
    var kw: Keywords := map[];
    var maxCnt: nat := 0;
    for i := 0 to |argSpecs|
      invariant i <= |args|
      invariant maxCnt == Saturated(SumMax(argSpecs[..i]))
      invariant Bind(args, argSpecs, i, kw) == Bind(args, argSpecs, 0, map[])
    {
      assert argSpecs[..i + 1][..i] == argSpecs[..i];
      var s := argSpecs[i];
      maxCnt := AddWithOverflow(maxCnt, s.max);
      if s.max - s.min > 0 {
        if i == |argSpecs| - 1 {
          assert argSpecs[..i + 1] == argSpecs;
          var arg := args[i..];
          if |arg| < s.min {
            return Err(OutOfRange(s.title));
          }
          if |arg| > s.max {
            return Err(OutOfRange(s.title));
          }
          var vs := ConvertSliceArg(arg, s.typ);
          if vs.None? {
            return Err(Conversion(s.title));
          }
          if |args| > maxCnt {
            return Err(Unexpected);
          }
          return Ok(kw[s.key := vs.value]);
        }
        return Err(RangeNotLast);
      }
      if i >= |args| {
        return Err(Required(s.title));
      }
      var value := ConvertArg(args[i], s.typ);
      if value.None? {
        return Err(Conversion(s.title));
      }
      kw := kw[s.key := value.value];
    }
    assert argSpecs[..|argSpecs|] == argSpecs;
    if |args| > maxCnt {
      return Err(Unexpected);
    }
    return Ok(kw);
  }

  // ---------- what the check guarantees ----------

  predicate TakesRange(s: ArgSpec) {
    s.max > s.min
  }

  /** A last argument that must be left out. */
  predicate TakesNothing(s: ArgSpec) {
    s.max == 0
  }

  /** The least counts do not sum to an integer. */
  predicate Overflows(specs: seq<ArgSpec>) {
    SumMin(specs) > MAX_INT64
  }

  lemma CountsOfAccepted(specs: seq<ArgSpec>, args: seq<string>)
    requires ValidSpecs(specs) && Accepted(specs, args) && specs != []
    ensures |specs| - 1 <= |args| <= MAX_INT64
    ensures !Overflows(specs) ==> |specs| - 1 + specs[|specs| - 1].min <= |args| <= |specs| - 1 + specs[|specs| - 1].max
    ensures Overflows(specs) ==> |args| < |specs| - 1 + specs[|specs| - 1].min
  {
    SumsOfAll(specs);
  }

  /** The argument of a spec, or all that are left for a range. */
  function TextsFor(args: seq<string>, specs: seq<ArgSpec>, i: nat): seq<string>
    requires i < |specs| && i <= |args|
  {
    if TakesRange(specs[i]) || i == |args| then args[i..] else [args[i]]
  }

  function ValueFor(args: seq<string>, specs: seq<ArgSpec>, i: nat): Option<Value>
    requires i < |specs| && i <= |args|
  {
    if TakesRange(specs[i]) then SliceOf(args[i..], specs[i].typ)
    else if i == |args| then None
    else ConvertArg(args[i], specs[i].typ)
  }

  /** The first spec from i on, before m, whose argument cannot be converted; otherwise m. */
  function FirstBad(args: seq<string>, specs: seq<ArgSpec>, i: nat, m: nat): (k: nat)
    requires i <= m <= |specs| && m <= |args| + 1
    ensures i <= k <= m
    decreases m - i
  {
    if i == m || ValueFor(args, specs, i).None? then i else FirstBad(args, specs, i + 1, m)
  }

  function KeywordsFrom(args: seq<string>, specs: seq<ArgSpec>, i: nat, kw: Keywords): Keywords
    requires i <= |specs| <= |args| + 1
    decreases |specs| - i
  {
    if i == |specs| || ValueFor(args, specs, i).None? then kw
    else KeywordsFrom(args, specs, i + 1, kw[specs[i].key := ValueFor(args, specs, i).value])
  }

  /** The number of specs that can get an argument: all, or all but the last. */
  function Used(specs: seq<ArgSpec>): nat {
    if specs != [] && (TakesNothing(specs[|specs| - 1]) || Overflows(specs)) then |specs| - 1 else |specs|
  }

  /** How the last spec ends when its least count does not fit: there are never enough arguments. */
  function LastOverflows(args: seq<string>, specs: seq<ArgSpec>): Error
    requires specs != []
  {
    var s := specs[|specs| - 1];
    if TakesRange(s) then OutOfRange(s.title)
    else if |args| == |specs| - 1 then Required(s.title) else Conversion(s.title)
  }

  /**
   Once the check has accepted the arguments, binding them fails only on a value that cannot be
   converted, on a last argument that must be left out, which is then required, or on one whose
   least count does not fit.
   */
  lemma {:induction false} BindAccepted(args: seq<string>, specs: seq<ArgSpec>, i: nat, kw: Keywords)
    requires ValidSpecs(specs) && Accepted(specs, args) && specs != [] && i <= Used(specs)
    ensures |specs| <= |args| + 1
    ensures Bind(args, specs, i, kw) ==
            if FirstBad(args, specs, i, Used(specs)) < Used(specs)
            then Err(Conversion(specs[FirstBad(args, specs, i, Used(specs))].title))
            else if Used(specs) == |specs| then Ok(KeywordsFrom(args, specs, i, kw))
            else if Overflows(specs) then Err(LastOverflows(args, specs))
            else Err(Required(specs[|specs| - 1].title))
    decreases |specs| - i
  {
    hide SliceOf;
    CountsOfAccepted(specs, args);
    SumsOfOnes(specs, |specs| - 1);
    assert ValidSpec(specs[|specs| - 1]);
    if i < Used(specs) {
      hide ConvertArg;
      assert i < |specs| - 1 ==> specs[i].min == specs[i].max == 1;
      var v := ValueFor(args, specs, i);
      if v.Some? && !TakesRange(specs[i]) {
        BindAccepted(args, specs, i + 1, kw[specs[i].key := v.value]);
      }
    }
  }

  predicate IsArityError(r: Result<Keywords>) {
    r.Err? && !r.error.Conversion?
  }

  /** A last argument that cannot be given in any number that the check lets through. */
  predicate LastNeverFits(args: seq<string>, specs: seq<ArgSpec>) {
    specs != [] &&
    var s := specs[|specs| - 1];
    TakesNothing(s) || (Overflows(specs) && (TakesRange(s) || |args| == |specs| - 1))
  }

  /**
   The comments promise that binding never fails on the number of arguments. It does exactly
   when the last argument never fits and all the others can be converted.
   */
  lemma ArityErrorExactly(args: seq<string>, specs: seq<ArgSpec>)
    requires ValidSpecs(specs) && Accepted(specs, args)
    ensures |specs| <= |args| + 1
    ensures IsArityError(Bind(args, specs, 0, map[]))
       <==> LastNeverFits(args, specs) && FirstBad(args, specs, 0, |specs| - 1) == |specs| - 1
  {
    hide ConvertArg, SliceOf, FirstBad, Bind;
    if specs != [] {
      BindAccepted(args, specs, 0, map[]);
      SumsOfAll(specs);
    } else {
      NoSpecs(args);
    }
  }

  lemma NoSpecs(args: seq<string>)
    requires Accepted([], args)
    ensures Bind(args, [], 0, map[]) == Ok(map[])
  {
  }

  function AllTexts(args: seq<string>, specs: seq<ArgSpec>, n: nat): seq<seq<string>>
    requires n <= |specs| <= |args| + 1
  {
    seq(n, i requires 0 <= i < n => TextsFor(args, specs, i))
  }

  predicate UniqueKeys(specs: seq<ArgSpec>) {
    forall i, k :: 0 <= i < k < |specs| ==> specs[i].key != specs[k].key
  }

  lemma {:induction false} KeywordsHold(args: seq<string>, specs: seq<ArgSpec>, i: nat, kw: Keywords, k: nat)
    requires i <= k < |specs| <= |args| + 1 && UniqueKeys(specs)
    requires FirstBad(args, specs, i, |specs|) == |specs|
    ensures var all := KeywordsFrom(args, specs, i, kw);
            specs[k].key in all && Some(all[specs[k].key]) == ValueFor(args, specs, k)
    decreases |specs| - i
  {
    hide ValueFor;
    var kw' := kw[specs[i].key := ValueFor(args, specs, i).value];
    if i < k {
      KeywordsHold(args, specs, i + 1, kw', k);
    } else {
      KeyStays(args, specs, i + 1, kw', k);
    }
  }

  lemma {:induction false} KeyStays(args: seq<string>, specs: seq<ArgSpec>, i: nat, kw: Keywords, k: nat)
    requires k < i <= |specs| <= |args| + 1 && UniqueKeys(specs) && specs[k].key in kw
    ensures specs[k].key in KeywordsFrom(args, specs, i, kw)
    ensures KeywordsFrom(args, specs, i, kw)[specs[k].key] == kw[specs[k].key]
    decreases |specs| - i
  {
    hide ValueFor;
    if i < |specs| && ValueFor(args, specs, i).Some? {
      KeyStays(args, specs, i + 1, kw[specs[i].key := ValueFor(args, specs, i).value], k);
    }
  }

  lemma {:induction false} TextsOfOnes(args: seq<string>, specs: seq<ArgSpec>, n: nat)
    requires ValidSpecs(specs) && n < |specs| <= |args| + 1 && n <= |args|
    ensures Concat(AllTexts(args, specs, n)) == args[..n]
  {
    if n > 0 {
      TextsOfOnes(args, specs, n - 1);
      assert specs[n - 1].min == specs[n - 1].max == 1;
      ConcatLast(AllTexts(args, specs, n - 1), [args[n - 1]]);
      assert AllTexts(args, specs, n) == AllTexts(args, specs, n - 1) + [[args[n - 1]]];
    }
  }

  /** Bound arguments are neither lost nor used twice: the texts that the keys get are all the arguments. */
  lemma EveryArgumentIsBound(args: seq<string>, specs: seq<ArgSpec>)
    requires ValidSpecs(specs) && Accepted(specs, args) && Bind(args, specs, 0, map[]).Ok?
    ensures |specs| <= |args| + 1 && Concat(AllTexts(args, specs, |specs|)) == args
  {
    hide Concat, Bind, TextsFor, ValidSpecs, Accepted, AllTexts;
    if specs != [] {
      var n := |specs| - 1;
      LastTexts(args, specs);
      TextsOfOnes(args, specs, n);
      ConcatLast(AllTexts(args, specs, n), TextsFor(args, specs, n));
      AllTextsNext(args, specs);
      assert args == args[..n] + args[n..];
    } else {
      NoTexts(args);
    }
  }

  lemma NoTexts(args: seq<string>)
    requires Accepted([], args)
    ensures args == [] && Concat(AllTexts(args, [], 0)) == []
  {
  }

  lemma AllTextsNext(args: seq<string>, specs: seq<ArgSpec>)
    requires specs != [] && |specs| <= |args| + 1
    ensures AllTexts(args, specs, |specs|)
         == AllTexts(args, specs, |specs| - 1) + [TextsFor(args, specs, |specs| - 1)]
  {
  }

  lemma LastTexts(args: seq<string>, specs: seq<ArgSpec>)
    requires ValidSpecs(specs) && Accepted(specs, args) && Bind(args, specs, 0, map[]).Ok? && specs != []
    ensures |specs| <= |args| + 1 && TextsFor(args, specs, |specs| - 1) == args[|specs| - 1..]
  {
    hide SliceOf, Concat, Bind, KeywordsFrom;
    BindAccepted(args, specs, 0, map[]);
    CountsOfAccepted(specs, args);
    LastIsGood(args, specs, 0);
    assert ValidSpec(specs[|specs| - 1]);
  }

  /** Every key has the value converted from its own texts. */
  lemma EveryKeyIsBound(args: seq<string>, specs: seq<ArgSpec>, k: nat)
    requires ValidSpecs(specs) && Accepted(specs, args) && UniqueKeys(specs) && k < |specs|
    requires Bind(args, specs, 0, map[]).Ok?
    ensures |specs| <= |args| + 1
    ensures var kw := Bind(args, specs, 0, map[]).value;
            specs[k].key in kw && Some(kw[specs[k].key]) == ValueFor(args, specs, k)
  {
    hide SliceOf, Bind, KeywordsFrom;
    BindAccepted(args, specs, 0, map[]);
    KeywordsHold(args, specs, 0, map[], k);
  }

  lemma {:induction false} LastIsGood(args: seq<string>, specs: seq<ArgSpec>, i: nat)
    requires i < |specs| <= |args| + 1 && FirstBad(args, specs, i, |specs|) == |specs|
    ensures ValueFor(args, specs, |specs| - 1).Some?
    decreases |specs| - i
  {
    hide ValueFor;
    if i < |specs| - 1 { LastIsGood(args, specs, i + 1); }
  }

  /** A last slice with a fixed number of values can never be given. */
  lemma FixedSliceNeverBinds(args: seq<string>, specs: seq<ArgSpec>)
    requires ValidSpecs(specs) && Accepted(specs, args) && specs != []
    requires var s := specs[|specs| - 1]; s.min == s.max && s.typ !in {String, Int64}
    ensures Bind(args, specs, 0, map[]).Err?
  {
    hide SliceOf;
    BindAccepted(args, specs, 0, map[]);
    if Bind(args, specs, 0, map[]).Ok? { LastIsGood(args, specs, 0); }
  }

  // ---------- which specs there are, and which counts they accept ----------

  datatype Addition =
    | AddString | AddInt64 | AddStringSlice(min: nat, max: nat) | AddKeyValueSlice(min: nat, max: nat)

  /** What the Add...Arg methods append; None is the panic on a least count above the largest. */
  function AddedSpec(addition: Addition, key: string, title: string): Option<ArgSpec> {
    match addition
    case AddString => Some(ArgSpec(key, title, String, 1, 1))
    case AddInt64 => Some(ArgSpec(key, title, Int64, 1, 1))
    case AddStringSlice(min, max) => if max < min then None else Some(ArgSpec(key, title, StringSlice, min, max))
    case AddKeyValueSlice(min, max) => if max < min then None else Some(ArgSpec(key, title, KeyValueSlice, min, max))
  }

  /** The valid specs are those that can be added, apart from slices of numbers, which nothing adds. */
  lemma AddedAreValid(s: ArgSpec)
    ensures ValidSpec(s) && s.typ != Int64Slice <==>
              s.max <= MAX_INT64 && exists addition :: AddedSpec(addition, s.key, s.title) == Some(s)
  {
    if ValidSpec(s) && s.typ != Int64Slice {
      var addition := match s.typ
        case String => AddString
        case Int64 => AddInt64
        case StringSlice => AddStringSlice(s.min, s.max)
        case _ => AddKeyValueSlice(s.min, s.max);
      assert AddedSpec(addition, s.key, s.title) == Some(s);
    }
  }

  /** Any valid spec may follow specs that each take just one argument, and no other. */
  lemma LastMayRange(specs: seq<ArgSpec>, s: ArgSpec)
    ensures ValidSpecs(specs + [s]) <==>
              && ValidSpec(s)
              && forall i :: 0 <= i < |specs| ==> ValidSpec(specs[i]) && specs[i].min == specs[i].max == 1
  {
    var all := specs + [s];
    assert forall i :: 0 <= i < |specs| ==> all[i] == specs[i];
    if ValidSpecs(all) { assert all[|specs|] == s; }
  }

  /** One argument for each spec but the last, and as many as the last one takes. */
  lemma AcceptedExactly(specs: seq<ArgSpec>, args: seq<string>)
    requires ValidSpecs(specs) && specs != [] && |args| <= MAX_INT64 && |specs| <= MAX_INT64
    ensures var others, last := |specs| - 1, specs[|specs| - 1];
            if others + last.min <= MAX_INT64
            then Accepted(specs, args) <==> others + last.min <= |args| <= others + last.max
            else Accepted(specs, args) <==> others <= |args|
  {
    SumsOfAll(specs);
  }

  /** A range anywhere but at the end is an error. */
  lemma RangeMustBeLast(args: seq<string>, specs: seq<ArgSpec>, kw: Keywords)
    requires |specs| > 1 && specs[0].max > specs[0].min
    ensures Bind(args, specs, 0, kw) == Err(RangeNotLast)
  {
  }

  // ---------- what the values are ----------

  /** A key and a value that can be written on both sides of an equals sign. */
  predicate PlainPair(kv: (string, string)) {
    kv.0 != "" && '=' !in kv.0 && TrimSpace(kv.0) == kv.0 && TrimSpace(kv.1) == kv.1
  }

  /** The key stands before the first equals sign and the value behind it, both without the space around them. */
  lemma PairIsTrimmed(left: string, right: string)
    requires '=' !in left
    ensures ParseKeyValue(left + "=" + right) == (TrimSpace(left), TrimSpace(right))
    ensures ToKeyValue(left + "=" + right) ==
            if TrimSpace(left) == "" then ("", "") else (TrimSpace(left), TrimSpace(right))
  {
    hide IndexOf, TrimSpace;
    var s := left + ['='] + right;
    IndexOfAt(left, '=', right);
    assert left + "=" + right == s && s[..|left|] == left && s[|left| + 1..] == right;
  }

  lemma PairIs(kv: (string, string))
    requires PlainPair(kv)
    ensures ToKeyValue(kv.0 + "=" + kv.1) == kv
  {
    hide TrimSpace, ToKeyValue;
    PairIsTrimmed(kv.0, kv.1);
  }

  lemma NoPair(s: string)
    ensures '=' !in s ==> ToKeyValue(s) == ("", "")
    ensures s != "" && s[0] == '=' ==> ToKeyValue(s) == ("", "")
  {
    if s != "" && s[0] == '=' {
      assert IndexOf(s, '=') == 0 && s[..0] == "";
      assert TrimSpace("") == "";
    }
  }

  /**
   What the keywords of accepted arguments hold: a text is bound as it is, a number that was
   written out as the number, and a slice as its texts, numbers or pairs in their order.
   */
  lemma BoundValues(args: seq<string>, specs: seq<ArgSpec>, k: nat)
    requires ValidSpecs(specs) && Accepted(specs, args) && UniqueKeys(specs) && k < |specs| && k <= |args|
    requires Bind(args, specs, 0, map[]).Ok? && specs[k].key in Bind(args, specs, 0, map[]).value
    ensures var v, s := Bind(args, specs, 0, map[]).value[specs[k].key], specs[k];
            && (s.typ == String ==> k < |args| && v == Text(args[k]))
            && (s.typ == Int64 ==> k < |args| && forall n: nat :: n <= MAX_INT64 ==>
                  && (args[k] == Decimal(n) ==> v == Number(n))
                  && (args[k] == "-" + Decimal(n) ==> v == Number(0 - n as int)))
            && (s.typ == StringSlice ==> v == Texts(args[k..]))
            && (s.typ == Int64Slice ==> forall ns: seq<nat> :: AreWritten(args[k..], ns) ==> v == Numbers(ns))
            && (s.typ == KeyValueSlice ==> forall kvs :: ArePairs(args[k..], kvs) ==> v == KeyValues(kvs))
  {
    hide SliceOf, Bind, Accepted, ConvertArg;
    EveryKeyIsBound(args, specs, k);
    assert ValidSpec(specs[k]);
    var v := ValueFor(args, specs, k);
    if TakesRange(specs[k]) {
      forall ns: seq<nat> | AreWritten(args[k..], ns) ensures SliceOf(args[k..], Int64Slice) == Some(Numbers(ns)) {
        NumbersAre(args[k..], ns);
      }
      forall kvs | ArePairs(args[k..], kvs) ensures SliceOf(args[k..], KeyValueSlice) == Some(KeyValues(kvs)) {
        PairsAre(args[k..], kvs);
      }
      SliceIs(args[k..]);
    } else {
      ArgIs(args[k], specs[k].typ);
    }
  }

  predicate AreWritten(values: seq<string>, ns: seq<nat>) {
    |ns| == |values| && forall i :: 0 <= i < |ns| ==> ns[i] <= MAX_INT64 && values[i] == Decimal(ns[i])
  }

  predicate ArePairs(values: seq<string>, kvs: seq<(string, string)>) {
    |kvs| == |values| && forall i :: 0 <= i < |kvs| ==> PlainPair(kvs[i]) && values[i] == kvs[i].0 + "=" + kvs[i].1
  }

  lemma ArgIs(value: string, typ: ArgType)
    ensures typ == String ==> ConvertArg(value, typ) == Some(Text(value))
    ensures typ == Int64 ==> forall n: nat :: n <= MAX_INT64 ==>
              && (value == Decimal(n) ==> ConvertArg(value, typ) == Some(Number(n)))
              && (value == "-" + Decimal(n) ==> ConvertArg(value, typ) == Some(Number(0 - n as int)))
    ensures typ !in {String, Int64} ==> ConvertArg(value, typ) == None
  {
    hide ParseInt, Decimal;
    if typ == Int64 {
      forall n: nat | n <= MAX_INT64
        ensures value == Decimal(n) ==> ConvertArg(value, typ) == Some(Number(n))
        ensures value == "-" + Decimal(n) ==> ConvertArg(value, typ) == Some(Number(0 - n as int))
      {
        DecimalIsRead(n);
      }
    }
  }

  lemma SliceIs(values: seq<string>)
    ensures SliceOf(values, StringSlice) == Some(Texts(values))
    ensures SliceOf(values, String) == None && SliceOf(values, Int64) == None
  {
  }

  lemma NumbersAre(values: seq<string>, ns: seq<nat>)
    requires AreWritten(values, ns)
    ensures SliceOf(values, Int64Slice) == Some(Numbers(ns))
  {
    hide ParseInt, Decimal;
    forall i | 0 <= i < |ns| ensures ParseInt(values[i], 10) == Some(ns[i]) {
      DecimalIsRead(ns[i]);
    }
    var s := SliceOf(values, Int64Slice);
    assert s.value.ns == ns;
  }

  lemma PairsAre(values: seq<string>, kvs: seq<(string, string)>)
    requires ArePairs(values, kvs)
    ensures SliceOf(values, KeyValueSlice) == Some(KeyValues(kvs))
  {
    hide ToKeyValue, PlainPair;
    forall i | 0 <= i < |kvs| ensures ToKeyValue(values[i]) == kvs[i] {
      PairIs(kvs[i]);
    }
    var s := SliceOf(values, KeyValueSlice);
    assert s.value.kvs == kvs;
  }

  /** The error for each way in which binding fails. */
  lemma BindErrors(args: seq<string>, s: ArgSpec, kw: Keywords)
    ensures args != [] ==> Bind(args, [], 0, kw) == Err(Unexpected)
    ensures s.max <= s.min ==> Bind([], [s], 0, kw) == Err(Required(s.title))
    ensures s.max <= s.min && args != [] && ConvertArg(args[0], s.typ).None? ==>
              Bind(args, [s], 0, kw) == Err(Conversion(s.title))
    ensures s.max > s.min && (|args| < s.min || |args| > s.max) ==> Bind(args, [s], 0, kw) == Err(OutOfRange(s.title))
    ensures s.max > s.min && s.min <= |args| <= s.max && SliceOf(args, s.typ).None? ==>
              Bind(args, [s], 0, kw) == Err(Conversion(s.title))
  {
    hide ConvertArg, SliceOf;
    assert args[0..] == args;
  }
}
