/**
 The order of versions in item 11 of Semantic Versioning 2.0.0, and how far the comparison of
 internal/version.go agrees with it.
 */
module Precedence {
  import opened Integers
  import opened Text
  import opened Versions
  import opened Wrappers

  // ---------- pre-releases: items 9 to 11 ----------

  /** Identifiers of digits only have a value, all others are texts. */
  datatype Identifier = Number(n: nat) | Name(text: string)

  predicate OnlyDigits(s: string) {
    s != "" && Value(s, 10).Some?
  }

  function IdentifierOf(s: string): Identifier {
    if OnlyDigits(s) then Number(Value(s, 10).value) else Name(s)
  }

  /** Numbers come in the order of their values and before all names, which come in the order of texts. */
  predicate IdentifierLess(a: Identifier, b: Identifier) {
    match (a, b)
    case (Number(m), Number(n)) => m < n
    case (Number(_), Name(_)) => true
    case (Name(_), Number(_)) => false
    case (Name(s), Name(t)) => Less(s, t)
  }

  /** The first identifier that differs decides; otherwise the longer list comes later. */
  predicate IdentifiersLess(a: seq<Identifier>, b: seq<Identifier>) {
    b != [] && (a == [] || IdentifierLess(a[0], b[0]) || (a[0] == b[0] && IdentifiersLess(a[1..], b[1..])))
  }

  /** What stands behind the first dash, without the build metadata, which do not count. */
  function PreRelease(version: string): string {
    var i := IndexOf(version, '-');
    if i < 0 then ""
    else
      var suffix := version[i + 1..];
      var j := IndexOf(suffix, '+');
      if j < 0 then suffix else suffix[..j]
  }

  function IdentifiersOf(parts: seq<string>): seq<Identifier> {
    seq(|parts|, i requires 0 <= i < |parts| => IdentifierOf(parts[i]))
  }

  function Identifiers(version: string): seq<Identifier> {
    IdentifiersOf(Split(PreRelease(version), '.'))
  }

  /** Precedence: the numbers decide, then a pre-release comes before its release, then the identifiers. */
  ghost predicate Precedes(left: string, right: string)
    requires NumericVersion(left) && NumericVersion(right)
  {
    || Before(Parse(left), Parse(right))
    || (&& Equal(Parse(left), Parse(right)) && Parse(left).hasSuffix
        && IdentifiersLess(Identifiers(left), Identifiers(right)))
  }

  lemma IdentifiersDiffer(a: Identifier, b: Identifier)
    ensures IdentifierLess(a, b) || IdentifierLess(b, a) <==> a != b
    ensures !(IdentifierLess(a, b) && IdentifierLess(b, a))
  {
    hide Less;
    if a.Name? && b.Name? {
      LessTotal(a.text, b.text);
      LessIrreflexive(a.text);
      if Less(a.text, b.text) && Less(b.text, a.text) { LessTransitive(a.text, b.text, a.text); }
    }
  }

  /** Of two different lists exactly one comes first. */
  lemma {:induction false} OneComesFirst(a: seq<Identifier>, b: seq<Identifier>)
    ensures IdentifiersLess(a, b) || IdentifiersLess(b, a) <==> a != b
    ensures !(IdentifiersLess(a, b) && IdentifiersLess(b, a))
  {
    hide IdentifierLess;
    if a != [] && b != [] {
      IdentifiersDiffer(a[0], b[0]);
      OneComesFirst(a[1..], b[1..]);
      assert a == [a[0]] + a[1..] && b == [b[0]] + b[1..];
    }
  }

  // ---------- the comparison of the code ----------

  /** The comparison puts two versions in the order of the standard. */
  ghost predicate ComparedWell(left: string, right: string)
    requires NumericVersion(left) && NumericVersion(right)
  {
    && Sign(left, right).Some?
    && (Sign(left, right).value < 0 <==> Precedes(left, right))
    && (Sign(left, right).value > 0 <==> Precedes(right, left))
  }

  /** The same numbers, and two pre-releases that are not the same. */
  ghost predicate OnlyPreReleasesDiffer(left: string, right: string)
    requires NumericVersion(left) && NumericVersion(right)
  {
    Equal(Parse(left), Parse(right)) && Parse(left).hasSuffix && Identifiers(left) != Identifiers(right)
  }

  /** The order of the code is that of the standard, except between two pre-releases of one version. */
  lemma ComparedWellExactly(left: string, right: string)
    requires NumericVersion(left) && NumericVersion(right)
    ensures ComparedWell(left, right) <==> !OnlyPreReleasesDiffer(left, right)
    ensures OnlyPreReleasesDiffer(left, right) ==>
              Sign(left, right) == Some(0) && (Precedes(left, right) || Precedes(right, left))
  {
    hide Before, Equal, Parse, NumericVersion, Sign, Identifiers, IdentifiersLess;
    SignIsOrder(left, right);
    BeforeIsTotal(Parse(left), Parse(right));
    OneComesFirst(Identifiers(left), Identifiers(right));
    EqualTurned(Parse(left), Parse(right));
  }

  lemma EqualTurned(v: Version, w: Version)
    ensures Equal(v, w) <==> Equal(w, v)
    ensures Equal(v, w) ==> v.hasSuffix == w.hasSuffix
  {
  }

  lemma Suffixed(core: string, suffix: string)
    requires '-' !in core
    ensures StripSuffix(core + "-" + suffix) == (true, core)
    ensures '+' !in suffix ==> PreRelease(core + "-" + suffix) == suffix
  {
    hide IndexOf;
    var version := core + ['-'] + suffix;
    IndexOfAt(core, '-', suffix);
    assert version[..|core|] == core && version[|core| + 1..] == suffix;
    assert core + "-" + suffix == version;
    if '+' !in suffix { assert IndexOf(suffix, '+') < 0; }
  }

  /** Two suffixes of one version are equal to the code, whatever their order. */
  lemma SuffixesAreEqual(core: string, a: string, b: string)
    requires '-' !in core && Numeric(Split(core, '.')) && '+' !in a && '+' !in b
    ensures NumericVersion(core + "-" + a) && NumericVersion(core + "-" + b)
    ensures Sign(core + "-" + a, core + "-" + b) == Some(0)
    ensures Precedes(core + "-" + a, core + "-" + b)
       <==> IdentifiersLess(IdentifiersOf(Split(a, '.')), IdentifiersOf(Split(b, '.')))
  {
    hide Split, Numeric, Sign, Before, Equal, StripSuffix, PreRelease, IdentifiersLess, IdentifiersOf;
    Suffixed(core, a);
    Suffixed(core, b);
    SignIsOrder(core + "-" + a, core + "-" + b);
    EqualToItself(Parse(core + "-" + a));
  }

  lemma EqualToItself(v: Version)
    ensures Equal(v, v) && !Before(v, v)
  {
  }

  /** For example, alpha comes before beta, but not to the code. */
  lemma AlphaAndBeta()
    ensures NumericVersion("1.0.0-alpha") && NumericVersion("1.0.0-beta")
    ensures Precedes("1.0.0-alpha", "1.0.0-beta") && Sign("1.0.0-alpha", "1.0.0-beta") == Some(0)
  {
    hide Sign, Before, Equal, Precedes, Parse, Split, Numeric, IdentifierOf, StripSuffix;
    NumbersOfExample();
    assert "1.0.0" + "-" + "alpha" == "1.0.0-alpha" && "1.0.0" + "-" + "beta" == "1.0.0-beta";
    SuffixesAreEqual("1.0.0", "alpha", "beta");
    OneName("alpha");
    OneName("beta");
  }

  lemma OneName(s: string)
    requires '.' !in s && s != "" && DigitValue(s[|s| - 1]) >= 10
    ensures IdentifiersOf(Split(s, '.')) == [Name(s)]
  {
    hide Split, Value;
    SplitNone(s, '.');
    NoValue(s);
  }

  lemma NoValue(s: string)
    requires s != "" && DigitValue(s[|s| - 1]) >= 10
    ensures Value(s, 10) == None
  {
    hide DigitValue;
  }

  lemma NumbersOfExample()
    ensures Numeric(Split("1.0.0", '.')) && '-' !in "1.0.0"
  {
    hide Split, MustAtoi, IndexOf;
    assert "1.0.0" == "1" + ['.'] + "0.0" && "0.0" == "0" + ['.'] + "0";
    SplitAt("1", '.', "0.0");
    SplitAt("0", '.', "0");
    SplitNone("0", '.');
    OneDigit('1');
    OneDigit('0');
  }

  lemma OneDigit(c: char)
    requires '0' <= c <= '9'
    ensures MustAtoi([c]).Some?
  {
    ValueAppend("", c, 10);
    assert "" + [c] == [c];
  }
}
