/**
 * The version grammar, its order and the gate built on them. A numeric test on an
 * operand that is no integer is left to the shell: `lenient` is a shell that takes
 * the empty string for zero, otherwise such a test fails.
 */
module VersionGate {
  import opened Basics

  predicate Digit(c: char) {
    '0' <= c <= '9'
  }

  predicate Digits(s: string) {
    forall i :: 0 <= i < |s| ==> Digit(s[i])
  }

  /** The number a digit string denotes. */
  function Value(s: string): int {
    if s == "" then 0 else Value(s[..|s| - 1]) * 10 + (s[|s| - 1] as int - '0' as int)
  }

  /** Index of the first character with a property, |s| when there is none. */
  function FirstDot(s: string): (i: int)
    ensures 0 <= i <= |s| && (i < |s| ==> s[i] == '.') && forall j :: 0 <= j < i ==> s[j] != '.'
  {
    if s == "" || s[0] == '.' then 0 else 1 + FirstDot(s[1..])
  }

  function DigitRun(s: string): (i: int)
    ensures 0 <= i <= |s| && Digits(s[..i]) && (i < |s| ==> !Digit(s[i]))
  {
    if s == "" || !Digit(s[0]) then 0 else 1 + DigitRun(s[1..])
  }

  function Strip(s: string): (r: string)
    ensures r == "" <==> s == ""
  {
    if |s| > 1 && s[0] == '0' then Strip(s[1..]) else s
  }

  /** `leaf_version_strip_zeros`. */
  method StripZeros(number: string) returns (r: string)
    ensures r == Strip(number)
  {
    r := number;
    while |r| > 1 && r[0] == '0'
      invariant Strip(r) == Strip(number)
      decreases |r|
    {
      r := r[1..];
    }
  }

  datatype Triple = Triple(major: string, minor: string, patch: string)

  datatype Parts = Parts(major: string, minor: string, patch: string, suffix: string)

  /** The patterns of the `case` over major, minor and patch joined by colons. */
  predicate CaseRejects(joined: string) {
    || (exists i :: 0 <= i < |joined| && !Digit(joined[i]) && joined[i] != ':')
    || (|joined| >= 2 && joined[0] == ':' && joined[1] == ':')
    || (|joined| >= 2 && joined[|joined| - 2] == ':' && joined[|joined| - 1] == ':')
    || (|joined| >= 1 && joined[0] == ':')
  }

  /** `[ "$s" -le limit ]`. */
  predicate AtMost(s: string, limit: int, lenient: bool) {
    if s == "" then lenient else Digits(s) && Value(s) <= limit
  }

  function Body(value: string, release: bool): string {
    if release && value != "" && (value[0] == 'v' || value[0] == 'V') then value[1..] else value
  }

  /** `${s%%.*}` */
  function BeforeDot(s: string): string {
    s[..FirstDot(s)]
  }

  /** `${s#*.}`: unchanged when there is no dot. */
  function AfterDot(s: string): string {
    if FirstDot(s) == |s| then s else s[FirstDot(s) + 1..]
  }

  /** The text cut at its first two dots, the last piece cut after its digits; None without two dots. */
  function Cut(body: string): Option<Parts> {
    var rest := AfterDot(body);
    if rest == body then None else
    var tail := AfterDot(rest);
    if tail == rest then None else
    var n := DigitRun(tail);
    Some(Parts(BeforeDot(body), BeforeDot(rest), tail[..n], tail[n..]))
  }

  /** What is printed for a cut text. */
  function Judge(p: Parts, release: bool, lenient: bool): Option<Triple> {
    if CaseRejects(p.major + ":" + p.minor + ":" + p.patch) then None
    else if !release && p.suffix != "" then None
    else if p.suffix != "" && p.suffix[0] == '.' then None
    else if AtMost(Strip(p.major), 9999, lenient) && AtMost(Strip(p.minor), 9999, lenient)
            && AtMost(Strip(p.patch), 9999, lenient)
    then Some(Triple(Strip(p.major), Strip(p.minor), Strip(p.patch)))
    else None
  }

  /** What `leaf_version_components` prints. */
  function Components(value: string, release: bool, lenient: bool): Option<Triple> {
    match Cut(Body(value, release))
    case None => None
    case Some(p) => Judge(p, release, lenient)
  }

  /** The parameter expansions that take the value apart. */
  method CutApart(value: string) returns (cut: Option<Parts>)
    ensures cut == Cut(value)
  {
    hide Digits, AfterDot, BeforeDot;
    var major := BeforeDot(value);
    var rest := AfterDot(value);
    if rest == value {
      return None;
    }
    var minor := BeforeDot(rest);
    var tail := AfterDot(rest);
    if tail == rest {
      return None;
    }
    var n := DigitRun(tail);
    return Some(Parts(major, minor, tail[..n], tail[n..]));
  }

  /** `leaf_version_components`, test by test. */
  method ParseComponents(input: string, release: bool, lenient: bool) returns (parsed: Option<Triple>)
    ensures parsed == Components(input, release, lenient)
  {
    hide CaseRejects, AtMost, Strip, Digits, Cut;
    var value := input;
    if release && value != "" && (value[0] == 'v' || value[0] == 'V') {
      value := value[1..];
    }
    var cut := CutApart(value);
    if cut.None? {
      return None;
    }
    var Parts(major, minor, patch, suffix) := cut.value;
    if CaseRejects(major + ":" + minor + ":" + patch) {
      return None;
    }
    if !release && suffix != "" {
      return None;
    }
    if suffix != "" && suffix[0] == '.' {
      return None;
    }
    major := StripZeros(major);
    minor := StripZeros(minor);
    patch := StripZeros(patch);
    if !(AtMost(major, 9999, lenient) && AtMost(minor, 9999, lenient) && AtMost(patch, 9999, lenient)) {
      return None;
    }
    return Some(Triple(major, minor, patch));
  }

  // ---- The grammar ----

  predicate Number(s: string) {
    Digits(s) && Value(s) <= 9999
  }

  /**
   * `a.b.c` with a leading "v" in front and a suffix behind for a release, where the
   * suffix continues neither the number nor the dots. A strict shell wants all three
   * numbers, a lenient one the first and one of the others.
   */
  predicate Shape(
      value: string, release: bool, lenient: bool, prefix: string, a: string, b: string, c: string, suffix: string)
  {
    && value == prefix + (a + "." + b + "." + c + suffix)
    && (prefix == "" || (release && (prefix == "v" || prefix == "V")))
    && Number(a) && Number(b) && Number(c)
    && a != "" && (if lenient then b != "" || c != "" else b != "" && c != "")
    && (suffix == "" || (release && !Digit(suffix[0]) && suffix[0] != '.'))
  }

  ghost predicate Grammatical(value: string, release: bool, lenient: bool) {
    exists prefix, a, b, c, suffix :: Shape(value, release, lenient, prefix, a, b, c, suffix)
  }

  lemma {:induction false} ValueStep(s: string)
    requires s != ""
    ensures s[0] == '0' ==> Value(s[1..]) == Value(s)
  {
    if |s| > 1 {
      assert s[1..][..|s| - 2] == s[..|s| - 1][1..];
      ValueStep(s[..|s| - 1]);
    }
  }

  /** Leading zeros change neither the value nor what the numeric test says of a nonempty operand. */
  lemma {:induction false} StripKeeps(s: string)
    ensures Digits(Strip(s)) <==> Digits(s)
    ensures Value(Strip(s)) == Value(s)
    ensures |Strip(s)| > 1 ==> Strip(s)[0] != '0'
  {
    if |s| > 1 && s[0] == '0' {
      StripKeeps(s[1..]);
      ValueStep(s);
      assert Digits(s) <==> Digits(s[1..]) by {
        assert forall i :: 0 <= i < |s| - 1 ==> s[1..][i] == s[i + 1];
      }
    }
  }

  lemma FirstDotOf(a: string, rest: string)
    requires Digits(a)
    ensures FirstDot(a + "." + rest) == |a|
  {
    var s := a + "." + rest;
    assert s[|a|] == '.';
    assert forall j :: 0 <= j < |a| ==> s[j] == a[j];
  }

  lemma {:induction false} DigitRunOf(c: string, suffix: string)
    requires Digits(c) && (suffix == "" || !Digit(suffix[0]))
    ensures DigitRun(c + suffix) == |c|
  {
    if c == "" {
      assert c + suffix == suffix;
    } else {
      assert (c + suffix)[1..] == c[1..] + suffix;
      DigitRunOf(c[1..], suffix);
    }
  }

  /** Three digit strings and a suffix that continues neither the digits nor the dots are cut where they were joined. */
  lemma CutOf(a: string, b: string, c: string, suffix: string)
    requires Digits(a) && Digits(b) && Digits(c) && (suffix == "" || !Digit(suffix[0]))
    ensures Cut(a + "." + b + "." + c + suffix) == Some(Parts(a, b, c, suffix))
  {
    hide Digits, AfterDot, BeforeDot;
    var tail := c + suffix;
    var rest := b + "." + tail;
    Regroup(a, b, c, suffix);
    DotSplits(a, rest);
    DotSplits(b, tail);
    DigitRunOf(c, suffix);
    hide DigitRun;
    assert tail[..|c|] == c && tail[|c|..] == suffix;
  }

  lemma DotSplits(a: string, rest: string)
    requires Digits(a)
    ensures BeforeDot(a + "." + rest) == a && AfterDot(a + "." + rest) == rest
    ensures rest != a + "." + rest
  {
    FirstDotOf(a, rest);
    hide FirstDot, Digits;
    assert |rest| < |a + "." + rest|;
  }

  lemma CutRejoins(body: string)
    requires Cut(body).Some?
    ensures var p := Cut(body).value;
            && body == p.major + "." + p.minor + "." + p.patch + p.suffix
            && Digits(p.patch) && (p.suffix == "" || !Digit(p.suffix[0]))
  {
    hide Digits, AfterDot, BeforeDot;
    var rest := AfterDot(body);
    var tail := AfterDot(rest);
    var n := DigitRun(tail);
    DotRejoins(body);
    DotRejoins(rest);
    Regroup(BeforeDot(body), BeforeDot(rest), tail[..n], tail[n..]);
    assert tail[..n] + tail[n..] == tail;
  }

  lemma DotRejoins(s: string)
    requires AfterDot(s) != s
    ensures s == BeforeDot(s) + "." + AfterDot(s)
  {
  }

  lemma Regroup(a: string, b: string, c: string, suffix: string)
    ensures a + "." + b + "." + c + suffix == a + "." + (b + "." + (c + suffix))
  {
  }

  /** The `case` over three digit strings rejects a missing first number, and two missing others. */
  lemma JoinedExact(a: string, b: string, c: string)
    requires Digits(a) && Digits(b) && Digits(c)
    ensures CaseRejects(a + ":" + b + ":" + c) <==> a == "" || (b == "" && c == "")
  {
    var j := a + ":" + b + ":" + c;
    forall i | 0 <= i < |j|
      ensures Digit(j[i]) || j[i] == ':'
    {
      if i < |a| {
        assert j[i] == a[i];
      } else if |a| < i < |a| + 1 + |b| {
        assert j[i] == b[i - |a| - 1];
      } else if |a| + 1 + |b| < i {
        assert j[i] == c[i - |a| - |b| - 2];
      }
    }
    assert a != "" ==> j[0] == a[0];
    assert c != "" ==> j[|j| - 1] == c[|c| - 1];
    assert c == "" && b != "" ==> j[|j| - 1] == ':' && j[|j| - 2] == b[|b| - 1];
  }

  /** A digit follows the prefix, so exactly the prefix is dropped. */
  lemma BodyOf(prefix: string, rest: string, release: bool)
    requires prefix == "" || (release && (prefix == "v" || prefix == "V"))
    requires rest != "" && Digit(rest[0])
    ensures Body(prefix + rest, release) == rest
  {
    assert prefix == "" ==> prefix + rest == rest;
  }

  lemma BodyRejoins(value: string, release: bool)
    ensures var body := Body(value, release);
            exists prefix :: (prefix == "" || (release && (prefix == "v" || prefix == "V"))) && value == prefix + body
  {
    var body := Body(value, release);
    var prefix := value[..|value| - |body|];
    assert value == prefix + body;
  }

  /** A grammatical value is accepted, whatever its leading zeros, with the numbers it denotes. */
  lemma GrammarAccepted(
      value: string, release: bool, lenient: bool, prefix: string, a: string, b: string, c: string, suffix: string)
    requires Shape(value, release, lenient, prefix, a, b, c, suffix)
    ensures Components(value, release, lenient) == Some(Triple(Strip(a), Strip(b), Strip(c)))
    ensures Value(Strip(a)) == Value(a) && Value(Strip(b)) == Value(b) && Value(Strip(c)) == Value(c)
  {
    hide Value, Strip, Body, CaseRejects, Cut;
    assert (a + "." + b + "." + c + suffix)[0] == a[0];
    BodyOf(prefix, a + "." + b + "." + c + suffix, release);
    hide Digits;
    CutOf(a, b, c, suffix);
    JoinedExact(a, b, c);
    StripKeeps(a);
    StripKeeps(b);
    StripKeeps(c);
  }

  /** Whatever is accepted is grammatical. */
  lemma AcceptedGrammar(value: string, release: bool, lenient: bool)
    requires Components(value, release, lenient).Some?
    ensures Grammatical(value, release, lenient)
  {
    hide Value, Strip, CaseRejects, Cut, Body, Digits;
    CutRejoins(Body(value, release));
    BodyRejoins(value, release);
    var p := Cut(Body(value, release)).value;
    var prefix :| (prefix == "" || (release && (prefix == "v" || prefix == "V"))) && value == prefix + Body(value, release);
    StripKeeps(p.major);
    StripKeeps(p.minor);
    StripKeeps(p.patch);
    NothingIsZero();
    JoinedExact(p.major, p.minor, p.patch);
    assert Shape(value, release, lenient, prefix, p.major, p.minor, p.patch, p.suffix);
  }

  lemma NothingIsZero()
    ensures Digits("") && Value("") == 0
  {
  }

  /** The parser accepts exactly the grammar of its shell, for every value and both modes. */
  lemma AcceptedExact(value: string, release: bool, lenient: bool)
    ensures Components(value, release, lenient).Some? <==> Grammatical(value, release, lenient)
  {
    hide Components, Shape;
    if Components(value, release, lenient).Some? {
      AcceptedGrammar(value, release, lenient);
    }
    if Grammatical(value, release, lenient) {
      var prefix, a, b, c, suffix :| Shape(value, release, lenient, prefix, a, b, c, suffix);
      GrammarAccepted(value, release, lenient, prefix, a, b, c, suffix);
    }
  }

  /** It is the strict grammar exactly in a shell whose numeric test rejects an empty operand. */
  lemma ParserExact(lenient: bool)
    ensures (forall value, release :: Components(value, release, lenient).Some? <==> Grammatical(value, release, false))
            <==> !lenient
  {
    if lenient {
      EmptyMinorAccepted();
    } else {
      forall value, release
        ensures Components(value, release, lenient).Some? <==> Grammatical(value, release, false)
      {
        AcceptedExact(value, release, lenient);
      }
    }
  }

  /** "1..3" passes the `case`; only the numeric test stands in its way. */
  lemma EmptyMinorAccepted()
    ensures Components("1..3", false, true).Some? && !Grammatical("1..3", false, false)
  {
    hide *;
    EmptyMinorShape();
    GrammarAccepted("1..3", false, true, "", "1", "", "3", "");
    forall prefix, a, b, c, suffix
      ensures !Shape("1..3", false, false, prefix, a, b, c, suffix)
    {
      NoOtherShape(prefix, a, b, c, suffix);
    }
    Ungrammatical("1..3");
  }

  lemma Ungrammatical(value: string)
    requires forall prefix, a, b, c, suffix :: !Shape(value, false, false, prefix, a, b, c, suffix)
    ensures !Grammatical(value, false, false)
  {
    hide Shape;
  }

  lemma EmptyMinorShape()
    ensures Shape("1..3", false, true, "", "1", "", "3", "")
    ensures Digits("1") && Digits("") && Digits("3") && "1..3" == "1" + "." + "" + "." + "3" + ""
  {
    assert Value("1") == 1 && Value("3") == 3 && Value("") == 0;
    assert "1..3" == "1" + "." + "" + "." + "3" + "";
    assert "1..3" == "" + ("1" + "." + "" + "." + "3" + "");
  }

  lemma NoOtherShape(prefix: string, a: string, b: string, c: string, suffix: string)
    ensures !Shape("1..3", false, false, prefix, a, b, c, suffix)
  {
    hide Cut, Value, CaseRejects, Digits;
    EmptyMinorShape();
    if Shape("1..3", false, false, prefix, a, b, c, suffix) {
      assert prefix + (a + "." + b + "." + c + suffix) == a + "." + b + "." + c + suffix;
      CutOf(a, b, c, suffix);
      CutOf("1", "", "3", "");
    }
  }

  // ---- Numbers ----

  function Figure(n: nat): char
    requires n < 10
  {
    "0123456789"[n]
  }

  /** A number as it is printed. */
  function Decimal(n: nat): string {
    if n < 10 then [Figure(n)] else Decimal(n / 10) + [Figure(n % 10)]
  }

  function Pow10(n: nat): int {
    if n == 0 then 1 else 10 * Pow10(n - 1)
  }

  predicate Canonical(s: string) {
    s != "" && Digits(s) && (|s| > 1 ==> s[0] != '0')
  }

  lemma FigureOf(c: char)
    requires Digit(c)
    ensures 0 <= c as int - '0' as int <= 9 && Figure(c as int - '0' as int) == c
  {
  }

  lemma CanonicalFront(s: string)
    requires Canonical(s) && |s| > 1
    ensures Canonical(s[..|s| - 1]) && s[..|s| - 1][0] == s[0] && Digit(s[|s| - 1])
  {
    assert forall i :: 0 <= i < |s| - 1 ==> s[..|s| - 1][i] == s[i];
  }

  lemma ValueSnoc(s: string)
    requires s != ""
    ensures Value(s) == Value(s[..|s| - 1]) * 10 + (s[|s| - 1] as int - '0' as int)
    ensures |s| == 1 ==> Value(s) == s[0] as int - '0' as int
  {
  }

  /** A digit string without leading zeros lies between two powers of ten. */
  lemma {:induction false} CanonicalBounds(s: string)
    requires Canonical(s)
    ensures 0 <= Value(s) < Pow10(|s|)
    ensures |s| > 1 || s[0] != '0' ==> Pow10(|s| - 1) <= Value(s)
  {
    hide Value, Digits;
    ValueSnoc(s);
    if |s| > 1 {
      CanonicalFront(s);
      FigureOf(s[|s| - 1]);
      CanonicalBounds(s[..|s| - 1]);
    } else {
      SingleDigit(s);
    }
  }

  lemma SingleDigit(s: string)
    requires Canonical(s) && |s| == 1
    ensures Digit(s[0]) && 0 <= s[0] as int - '0' as int <= 9 && Pow10(1) == 10 && Pow10(0) == 1
    ensures s[0] != '0' ==> 1 <= s[0] as int - '0' as int
    ensures Decimal(s[0] as int - '0' as int) == s
  {
    assert Digit(s[0]);
    FigureOf(s[0]);
  }

  /** Such a string is what its number is printed as. */
  lemma {:induction false} CanonicalIsDecimal(s: string)
    requires Canonical(s)
    ensures 0 <= Value(s) && Decimal(Value(s)) == s
  {
    hide Value, Digits;
    ValueSnoc(s);
    if |s| > 1 {
      var front, last := s[..|s| - 1], s[|s| - 1];
      CanonicalFront(s);
      FigureOf(last);
      CanonicalBounds(front);
      PowPositive(|front| - 1);
      CanonicalIsDecimal(front);
      DecimalStep(Value(front), last as int - '0' as int);
      assert s == front + [last];
    } else {
      SingleDigit(s);
    }
  }

  lemma DecimalStep(v: int, d: int)
    requires 1 <= v && 0 <= d <= 9
    ensures Decimal(v * 10 + d) == Decimal(v) + [Figure(d)]
  {
    assert (v * 10 + d) / 10 == v && (v * 10 + d) % 10 == d;
  }

  lemma {:induction false} PowPositive(n: nat)
    ensures Pow10(n) >= 1
  {
    if n > 0 {
      PowPositive(n - 1);
    }
  }

  lemma {:induction false} PowGrows(m: nat, n: nat)
    requires m <= n
    ensures Pow10(m) <= Pow10(n)
  {
    PowPositive(m);
    if m < n {
      PowGrows(m, n - 1);
    }
  }

  /** What is printed for a number is its decimal form, and the limit on it is four digits. */
  lemma StrippedExact(s: string)
    requires s != "" && Digits(s)
    ensures 0 <= Value(s) && Strip(s) == Decimal(Value(s))
    ensures Value(s) <= 9999 <==> |Strip(s)| <= 4
  {
    var t := Strip(s);
    StripKeeps(s);
    hide Strip, Value, Digits, Decimal;
    CanonicalBounds(t);
    CanonicalIsDecimal(t);
    assert Pow10(4) == 10000;
    if |t| <= 4 {
      PowGrows(|t|, 4);
    } else {
      PowGrows(4, |t| - 1);
    }
  }

  /** A number of the grammar is a digit string with at most four digits behind its leading zeros. */
  lemma NumberExact(s: string)
    ensures Number(s) <==> Digits(s) && |Strip(s)| <= 4
  {
    if s == "" {
      NothingIsZero();
    } else if Digits(s) {
      StrippedExact(s);
    }
  }

  // ---- Order and gate ----

  datatype Rank = Rank(major: int, minor: int, patch: int)

  function RankOf(t: Triple): Rank {
    Rank(Value(t.major), Value(t.minor), Value(t.patch))
  }

  /** The lexicographic order on versions. */
  predicate NotBelow(x: Rank, y: Rank) {
    x.major > y.major || (x.major == y.major && (x.minor > y.minor || (x.minor == y.minor && x.patch >= y.patch)))
  }

  /** `leaf_version_at_least`: 0 for yes, 1 for no, 2 and 3 when a side does not parse. */
  function AtLeast(installed: string, required: string): int {
    match Components(installed, true, false)
    case None => 2
    case Some(i) =>
      match Components(required, false, false)
      case None => 3
      case Some(r) =>
        var x, y := RankOf(i), RankOf(r);
        if x.major > y.major then 0
        else if x.major < y.major then 1
        else if x.minor > y.minor then 0
        else if x.minor < y.minor then 1
        else if x.patch >= y.patch then 0 else 1
  }

  /** The gate's exit code from the strings found in the two files; `jawaka` is empty when none is published. */
  function GateCode(minLeaf: Option<string>, minJawaka: Option<string>, installed: Option<string>, jawaka: string): int {
    if minLeaf.None? || minJawaka.None? then 65
    else if Components(minLeaf.value, false, false).None? || Components(minJawaka.value, false, false).None? then 65
    else if installed.None? || Components(installed.value, true, false).None? then 66
    else if AtLeast(installed.value, minLeaf.value) != 0 then 67
    else if jawaka == "" || Components(jawaka, true, false).None? then 0
    else if AtLeast(jawaka, minJawaka.value) != 0 then 67
    else 0
  }

  lemma AtLeastExact(installed: string, required: string)
    ensures AtLeast(installed, required) == 0 <==>
            var i, r := Components(installed, true, false), Components(required, false, false);
            i.Some? && r.Some? && NotBelow(RankOf(i.value), RankOf(r.value))
  {
    hide Components, RankOf;
  }

  /** A total order: of two versions one is not below the other, both only when equal, and it is transitive. */
  lemma OrderTotal(x: Rank, y: Rank, z: Rank)
    ensures NotBelow(x, y) || NotBelow(y, x)
    ensures NotBelow(x, y) && NotBelow(y, x) <==> x == y
    ensures NotBelow(x, y) && NotBelow(y, z) ==> NotBelow(x, z)
  {
  }

  /** A gate that passes one installed version passes every later one. */
  lemma GateMonotone(
      minLeaf: Option<string>, minJawaka: Option<string>, earlier: string, later: string, jawaka: string)
    requires GateCode(minLeaf, minJawaka, Some(earlier), jawaka) == 0
    requires Components(later, true, false).Some?
    requires NotBelow(RankOf(Components(later, true, false).value), RankOf(Components(earlier, true, false).value))
    ensures GateCode(minLeaf, minJawaka, Some(later), jawaka) == 0
  {
    AtLeastExact(earlier, minLeaf.value);
    AtLeastExact(later, minLeaf.value);
    hide Components, RankOf, AtLeast;
    OrderTotal(
      RankOf(Components(later, true, false).value), RankOf(Components(earlier, true, false).value),
      RankOf(Components(minLeaf.value, false, false).value));
  }

  /** The rank of a version string, None when it is missing or does not parse. */
  function Parsed(value: Option<string>, release: bool): Option<Rank> {
    if value.None? then None
    else match Components(value.value, release, false) case None => None case Some(t) => Some(RankOf(t))
  }

  /**
   * The gate's verdicts: 65 for a floor that is missing or does not parse, else 66
   * for such an installed version, else 67 for one below its floor or a published
   * Jawaka version below its own, else 0; an unreadable Jawaka version blocks nothing.
   */
  lemma GateExact(minLeaf: Option<string>, minJawaka: Option<string>, installed: Option<string>, jawaka: string)
    ensures var a, b := Parsed(minLeaf, false), Parsed(minJawaka, false);
            var i, j := Parsed(installed, true), Parsed(Some(jawaka), true);
            var code := GateCode(minLeaf, minJawaka, installed, jawaka);
            && (code == 65 <==> a.None? || b.None?)
            && (code == 66 <==> a.Some? && b.Some? && i.None?)
            && (code == 67 <==> a.Some? && b.Some? && i.Some?
                                && (!NotBelow(i.value, a.value) || (j.Some? && !NotBelow(j.value, b.value))))
            && (code == 0 <==> a.Some? && b.Some? && i.Some?
                               && NotBelow(i.value, a.value) && (j.None? || NotBelow(j.value, b.value)))
  {
    hide Components, RankOf, AtLeast, NotBelow, Cut, Judge;
    if minLeaf.Some? && minJawaka.Some? && installed.Some? {
      AtLeastExact(installed.value, minLeaf.value);
      AtLeastExact(jawaka, minJawaka.value);
    }
    EmptyUnparsed();
  }

  lemma EmptyUnparsed()
    ensures Components("", true, false).None?
  {
    assert FirstDot("") == 0;
  }

  /** Every floor is passed by its own release and its pre-releases, with or without a leading "v". */
  lemma OwnFloor(floor: string, suffix: string)
    requires Grammatical(floor, false, false)
    requires suffix == "" || (!Digit(suffix[0]) && suffix[0] != '.')
    ensures AtLeast(floor + suffix, floor) == 0
    ensures AtLeast("v" + floor + suffix, floor) == 0 && AtLeast("V" + floor + suffix, floor) == 0
  {
    hide Components;
    var none, a, b, c, rest :| Shape(floor, false, false, none, a, b, c, rest);
    assert floor == a + "." + b + "." + c;
    assert floor + suffix == "" + (a + "." + b + "." + c + suffix);
    hide Value, Digits;
    GrammarAccepted(floor, false, false, "", a, b, c, "");
    GrammarAccepted(floor + suffix, true, false, "", a, b, c, suffix);
    forall v | v in {"v", "V"}
      ensures AtLeast(v + floor + suffix, floor) == 0
    {
      assert v + floor + suffix == v + (a + "." + b + "." + c + suffix);
      GrammarAccepted(v + floor + suffix, true, false, v, a, b, c, suffix);
    }
  }
}
