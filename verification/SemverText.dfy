/**
  Version texts as `release-versioning.ts` stores, prints and parses them: decimal numbers, dot-separated
  identifiers, and the parser of Semantic Versioning 2.0.0 (items 2, 9 and 10).
 */
module SemverText {
  import opened Basics

  const MAX_LENGTH := 256
  const MAX_SAFE_INTEGER := 9007199254740991
  const MAX_PRERELEASE := 100
  const MAX_BUILD := 50

  /** What the parser returns; identifiers are kept as text. */
  datatype SemVer = SemVer(major: nat, minor: nat, patch: nat, prerelease: seq<string>, build: seq<string>)

  /** What a release row stores: both identifier lists joined with dots. */
  datatype Parts = Parts(major: nat, minor: nat, patch: nat, prerelease: string, build: string)

  predicate IsDigit(c: char) {
    '0' <= c <= '9'
  }

  predicate IsIdentifierChar(c: char) {
    IsDigit(c) || 'a' <= c <= 'z' || 'A' <= c <= 'Z' || c == '-'
  }

  predicate AllDigits(s: string) {
    forall i :: 0 <= i < |s| ==> IsDigit(s[i])
  }

  /** Digits without a leading zero. */
  predicate IsNumericIdentifier(s: string) {
    s != "" && AllDigits(s) && (s[0] == '0' ==> |s| == 1)
  }

  predicate IsBuildIdentifier(s: string) {
    s != "" && forall i :: 0 <= i < |s| ==> IsIdentifierChar(s[i])
  }

  predicate IsPrereleaseIdentifier(s: string) {
    IsBuildIdentifier(s) && (AllDigits(s) ==> IsNumericIdentifier(s))
  }

  // ---- decimal numbers ----

  function ToDecimal(n: nat): (s: string)
    ensures IsNumericIdentifier(s)
    ensures n > 0 ==> s[0] != '0'
  {
    if n < 10 then [('0' as int + n) as char]
    else ToDecimal(n / 10) + [('0' as int + n % 10) as char]
  }

  function FromDecimal(s: string): nat
    requires AllDigits(s)
  {
    if s == "" then 0
    else FromDecimal(s[..|s| - 1]) * 10 + (s[|s| - 1] as int - '0' as int)
  }

  lemma {:induction false} FromToDecimal(n: nat)
    ensures FromDecimal(ToDecimal(n)) == n
  {
    var s := ToDecimal(n);
    if n < 10 {
      assert s[..0] == "";
    } else {
      FromToDecimal(n / 10);
      assert s[..|s| - 1] == ToDecimal(n / 10);
    }
  }

  lemma ToDecimalInjective(m: nat, n: nat)
    requires ToDecimal(m) == ToDecimal(n)
    ensures m == n
  {
    FromToDecimal(m);
    FromToDecimal(n);
  }

  /** A number below 10^d prints with at most d digits. */
  lemma {:induction false} DecimalLength(n: nat, d: nat)
    requires d > 0 && n < Pow10(d)
    ensures |ToDecimal(n)| <= d
  {
    if n >= 10 {
      DecimalLength(n / 10, d - 1);
    }
  }

  function Pow10(d: nat): nat {
    if d == 0 then 1 else 10 * Pow10(d - 1)
  }

  lemma SafeIntegerLength(n: nat)
    requires n <= MAX_SAFE_INTEGER
    ensures |ToDecimal(n)| <= 16
  {
    assert Pow10(4) == 10000;
    assert Pow10(8) == 10000 * Pow10(4);
    assert Pow10(12) == 10000 * Pow10(8);
    assert Pow10(16) == 10000 * Pow10(12);
    DecimalLength(n, 16);
  }

  // ---- splitting and joining ----

  function Split(s: string, sep: char): (parts: seq<string>)
    ensures |parts| >= 1
  {
    if s == "" then [""]
    else
      var rest := Split(s[1..], sep);
      if s[0] == sep then [""] + rest else [[s[0]] + rest[0]] + rest[1..]
  }

  function Join(parts: seq<string>, sep: char): string {
    if parts == [] then ""
    else if |parts| == 1 then parts[0]
    else parts[0] + [sep] + Join(parts[1..], sep)
  }

  lemma {:induction false} JoinSplit(s: string, sep: char)
    ensures Join(Split(s, sep), sep) == s
  {
    if s != "" {
      JoinSplit(s[1..], sep);
      var rest := Split(s[1..], sep);
      if s[0] == sep {
        assert ([""] + rest)[1..] == rest;
        assert "" + [sep] + s[1..] == s;
      } else {
        var parts := [[s[0]] + rest[0]] + rest[1..];
        assert parts[1..] == rest[1..];
        if |rest| > 1 {
          assert Join(parts, sep) == [s[0]] + (rest[0] + [sep] + Join(rest[1..], sep));
        }
        assert s == [s[0]] + s[1..];
      }
    }
  }

  /** Splitting in front of a separator. */
  lemma {:induction false} SplitConcat(a: string, sep: char, b: string)
    requires sep !in a
    ensures Split(a, sep) == [a]
    ensures Split(a + [sep] + b, sep) == [a] + Split(b, sep)
  {
    if a == "" {
      assert a + [sep] + b == [sep] + b;
      assert ([sep] + b)[1..] == b;
    } else {
      SplitConcat(a[1..], sep, b);
      var whole := a + [sep] + b;
      assert whole[1..] == a[1..] + [sep] + b;
      assert [a[0]] + a[1..] == a;
    }
  }

  lemma {:induction false} SplitJoin(parts: seq<string>, sep: char)
    requires parts != []
    requires forall i :: 0 <= i < |parts| ==> sep !in parts[i]
    ensures Split(Join(parts, sep), sep) == parts
  {
    if |parts| == 1 {
      SplitConcat(parts[0], sep, "");
    } else {
      var rest := parts[1..];
      SplitJoin(rest, sep);
      SplitConcat(parts[0], sep, Join(rest, sep));
      assert parts == [parts[0]] + rest;
    }
  }

  /** The text up to the first `c`, and the text behind it when there is one. */
  function Cut(s: string, c: char): (string, Option<string>) {
    if s == "" then ("", None)
    else if s[0] == c then ("", Some(s[1..]))
    else
      var (before, after) := Cut(s[1..], c);
      ([s[0]] + before, after)
  }

  lemma {:induction false} CutAt(before: string, c: char, after: string)
    requires c !in before
    ensures Cut(before, c) == (before, None)
    ensures Cut(before + [c] + after, c) == (before, Some(after))
  {
    var whole := before + [c] + after;
    if before == "" {
      assert whole[1..] == after;
    } else {
      assert whole[1..] == before[1..] + [c] + after;
      CutAt(before[1..], c, after);
      assert [before[0]] + before[1..] == before;
    }
  }

  // ---- parsing ----

  /** The white space and line terminators of ECMAScript, which `trim` and `\s` share. */
  predicate IsWhitespace(c: char) {
    || c == ' ' || '\t' <= c <= '\r' || c == '\U{00A0}' || c == '\U{1680}' || '\U{2000}' <= c <= '\U{200A}'
    || c == '\U{2028}' || c == '\U{2029}' || c == '\U{202F}' || c == '\U{205F}' || c == '\U{3000}' || c == '\U{FEFF}'
  }

  function Trim(s: string): string {
    if s == "" then ""
    else if IsWhitespace(s[0]) then Trim(s[1..])
    else if IsWhitespace(s[|s| - 1]) then Trim(s[..|s| - 1])
    else s
  }

  function ParseNumber(s: string): Option<nat> {
    if IsNumericIdentifier(s) && FromDecimal(s) <= MAX_SAFE_INTEGER then Some(FromDecimal(s)) else None
  }

  /** An absent section is the empty list; a present one is a list of identifiers. */
  function ParseIdentifiers(section: Option<string>, valid: string -> bool): Option<seq<string>> {
    if section.None? then Some([])
    else
      var ids := Split(section.value, '.');
      if forall i :: 0 <= i < |ids| ==> valid(ids[i]) then Some(ids) else None
  }

  /** A `v` in front of the text is not part of the version. */
  function WithoutMark(trimmed: string): string {
    if trimmed != "" && trimmed[0] == 'v' then trimmed[1..] else trimmed
  }

  /** `semver.parse` in strict mode: trim, an optional `v`, three numbers, `-` prerelease, `+` build. */
  function Parse(text: string): Option<SemVer> {
    if |text| > MAX_LENGTH then None else ParseBody(WithoutMark(Trim(text)))
  }

  function ParseBody(body: string): Option<SemVer> {
    var (left, buildText) := Cut(body, '+');
    var (core, prereleaseText) := Cut(left, '-');
    var numbers := Split(core, '.');
    if |numbers| != 3 then None
    else
      var major, minor, patch := ParseNumber(numbers[0]), ParseNumber(numbers[1]), ParseNumber(numbers[2]);
      var prerelease := ParseIdentifiers(prereleaseText, IsPrereleaseIdentifier);
      var build := ParseIdentifiers(buildText, IsBuildIdentifier);
      if major.None? || minor.None? || patch.None? || prerelease.None? || build.None? then None
      else Some(SemVer(major.value, minor.value, patch.value, prerelease.value, build.value))
  }

  lemma {:induction false} TrimShortens(s: string)
    ensures |Trim(s)| <= |s|
    decreases |s|
  {
    if s != "" {
      if IsWhitespace(s[0]) {
        TrimShortens(s[1..]);
      } else if IsWhitespace(s[|s| - 1]) {
        TrimShortens(s[..|s| - 1]);
      }
    }
  }

  lemma {:induction false} CutLengths(s: string, c: char)
    ensures var (before, after) := Cut(s, c); |before| + (if after.Some? then 1 + |after.value| else 0) == |s|
  {
    if s != "" {
      CutLengths(s[1..], c);
    }
  }

  lemma {:induction false} SplitLengths(s: string, sep: char)
    ensures forall x :: x in Split(s, sep) ==> |x| <= |s|
    ensures var parts := Split(s, sep); |parts| == 3 ==> |parts[0]| + |parts[1]| + |parts[2]| + 2 == |s|
  {
    JoinSplit(s, sep);
    JoinLengths(Split(s, sep), sep);
    var parts := Split(s, sep);
    if |parts| == 3 {
      assert parts[1..][0] == parts[1] && parts[1..][1..] == [parts[2]];
      assert Join(parts[1..], sep) == parts[1] + [sep] + parts[2];
    }
  }

  lemma {:induction false} JoinLengths(parts: seq<string>, sep: char)
    ensures forall x :: x in parts ==> |x| <= |Join(parts, sep)|
  {
    if |parts| > 1 {
      JoinLengths(parts[1..], sep);
      assert parts == [parts[0]] + parts[1..];
    }
  }

  /**
    The parser's limit of 250 characters per identifier never bites: three numbers, two dots and a mark are at least
    six of the 256 characters.
   */
  lemma IdentifiersAreShort(text: string)
    requires Parse(text).Some?
    ensures forall x :: x in Parse(text).value.prerelease || x in Parse(text).value.build ==> |x| <= MAX_LENGTH - 6
  {
    TrimShortens(text);
    var trimmed := Trim(text);
    var body := if trimmed != "" && trimmed[0] == 'v' then trimmed[1..] else trimmed;
    var (left, buildText) := Cut(body, '+');
    var (core, prereleaseText) := Cut(left, '-');
    CutLengths(body, '+');
    CutLengths(left, '-');
    SplitLengths(core, '.');
    assert |core| >= 5;
    if prereleaseText.Some? {
      SplitLengths(prereleaseText.value, '.');
    }
    if buildText.Some? {
      SplitLengths(buildText.value, '.');
    }
  }

  // ---- the stored parts and the `semver` computed field ----

  function Stored(v: SemVer): Parts {
    Parts(v.major, v.minor, v.patch, Join(v.prerelease, '.'), Join(v.build, '.'))
  }

  /** The identifiers of a stored section; the empty text stands for no section. */
  function Identifiers(section: string): seq<string> {
    if section == "" then [] else Split(section, '.')
  }

  function Restored(p: Parts): SemVer {
    SemVer(p.major, p.minor, p.patch, Identifiers(p.prerelease), Identifiers(p.build))
  }

  /** Parts that a parsed version can leave in a row, within the length limits of the two text columns. */
  predicate ValidParts(p: Parts) {
    && p.major <= MAX_SAFE_INTEGER && p.minor <= MAX_SAFE_INTEGER && p.patch <= MAX_SAFE_INTEGER
    && |p.prerelease| <= MAX_PRERELEASE && |p.build| <= MAX_BUILD
    && (forall x :: x in Identifiers(p.prerelease) ==> IsPrereleaseIdentifier(x))
    && (forall x :: x in Identifiers(p.build) ==> IsBuildIdentifier(x))
  }

  function Core(p: Parts): string {
    ToDecimal(p.major) + "." + ToDecimal(p.minor) + "." + ToDecimal(p.patch)
  }

  function Section(mark: string, section: string): string {
    if section == "" then "" else mark + section
  }

  function PrintSemver(p: Parts): string {
    Core(p) + Section("-", p.prerelease) + Section("+", p.build)
  }

  lemma {:induction false} SplitPieces(s: string, sep: char)
    ensures forall x, c :: x in Split(s, sep) && c in x ==> c in s && c != sep
    ensures forall c :: c in s && c != sep ==> exists x :: x in Split(s, sep) && c in x
  {
    if s != "" {
      SplitPieces(s[1..], sep);
      var rest := Split(s[1..], sep);
      var parts := Split(s, sep);
      forall x, c | x in parts && c in x ensures c in s && c != sep {
        if s[0] != sep && x == parts[0] {
          assert rest[0] in rest;
        } else {
          assert x == "" || x in rest;
        }
      }
      forall c | c in s && c != sep ensures exists x :: x in parts && c in x {
        if c == s[0] {
          assert c in parts[0];
        } else {
          assert c in s[1..];
          var x :| x in rest && c in x;
          var k :| 0 <= k < |rest| && rest[k] == x;
          if s[0] == sep {
            assert parts[k + 1] == x;
          } else if k == 0 {
            assert c in parts[0];
          } else {
            assert parts[k] == x;
          }
        }
      }
    }
  }

  /** A valid section holds identifier characters and dots only. */
  lemma SectionChars(section: string)
    requires forall x :: x in Identifiers(section) ==> IsBuildIdentifier(x)
    ensures forall c :: c in section ==> IsIdentifierChar(c) || c == '.'
  {
    if section != "" {
      SplitPieces(section, '.');
      forall c | c in section && c != '.' ensures IsIdentifierChar(c) {
        var x :| x in Split(section, '.') && c in x;
        assert IsBuildIdentifier(x);
      }
    }
  }

  lemma CoreChars(p: Parts)
    ensures forall c :: c in Core(p) ==> IsDigit(c) || c == '.'
  {
  }

  lemma CoreSplits(p: Parts)
    ensures Split(Core(p), '.') == [ToDecimal(p.major), ToDecimal(p.minor), ToDecimal(p.patch)]
    ensures forall c :: c in Core(p) ==> IsDigit(c) || c == '.'
  {
    CoreChars(p);
    var a, b, c := ToDecimal(p.major), ToDecimal(p.minor), ToDecimal(p.patch);
    assert Core(p) == a + ['.'] + (b + ['.'] + c);
    SplitConcat(a, '.', b + ['.'] + c);
    SplitConcat(b, '.', c);
    SplitConcat(c, '.', "");
  }

  lemma NumberRoundTrip(n: nat)
    requires n <= MAX_SAFE_INTEGER
    ensures ParseNumber(ToDecimal(n)) == Some(n)
  {
    FromToDecimal(n);
  }

  /** The printed text is short enough for the parser and has nothing to trim. */
  lemma PrintedTextIsAcceptable(p: Parts)
    requires ValidParts(p)
    ensures |PrintSemver(p)| <= MAX_LENGTH
    ensures Trim(PrintSemver(p)) == PrintSemver(p) && IsDigit(PrintSemver(p)[0])
  {
    SafeIntegerLength(p.major);
    SafeIntegerLength(p.minor);
    SafeIntegerLength(p.patch);
    var text := PrintSemver(p);
    assert text[0] == ToDecimal(p.major)[0];
    CoreSplits(p);
    SectionChars(p.prerelease);
    SectionChars(p.build);
    var last := text[|text| - 1];
    assert last in Core(p) || last in p.prerelease || last in p.build;
    assert !IsWhitespace(last);
  }

  /** The parser finds the three sections of a printed version where the printer put them. */
  lemma PrintedSections(p: Parts)
    requires forall x :: x in Identifiers(p.prerelease) ==> IsPrereleaseIdentifier(x)
    requires forall x :: x in Identifiers(p.build) ==> IsBuildIdentifier(x)
    ensures Cut(PrintSemver(p), '+')
         == (Core(p) + Section("-", p.prerelease), if p.build == "" then None else Some(p.build))
    ensures Cut(Core(p) + Section("-", p.prerelease), '-')
         == (Core(p), if p.prerelease == "" then None else Some(p.prerelease))
  {
    CoreSplits(p);
    SectionChars(p.prerelease);
    SectionCut(Core(p), '-', p.prerelease);
    SectionCut(Core(p) + Section("-", p.prerelease), '+', p.build);
  }

  /** A section behind its mark, in front of which the mark does not occur. */
  lemma SectionCut(before: string, mark: char, section: string)
    requires mark !in before
    ensures Cut(before + Section([mark], section), mark) == (before, if section == "" then None else Some(section))
  {
    var whole := before + Section([mark], section);
    if section == "" {
      assert whole == before;
      CutAt(before, mark, "");
    } else {
      assert whole == before + [mark] + section;
      CutAt(before, mark, section);
    }
  }

  lemma SectionRoundTrip(section: string, valid: string -> bool)
    requires forall x :: x in Identifiers(section) ==> valid(x)
    ensures ParseIdentifiers(if section == "" then None else Some(section), valid) == Some(Identifiers(section))
    ensures Join(Identifiers(section), '.') == section
  {
    if section != "" {
      var ids := Split(section, '.');
      assert forall i :: 0 <= i < |ids| ==> ids[i] in ids;
      JoinSplit(section, '.');
    }
  }

  /** Printing stored parts and parsing the text gives the parts back. */
  lemma SemverRoundTrip(p: Parts)
    requires ValidParts(p)
    ensures Parse(PrintSemver(p)) == Some(Restored(p))
    ensures Stored(Restored(p)) == p
  {
    PrintedTextIsAcceptable(p);
    PrintedSections(p);
    CoreSplits(p);
    NumberRoundTrip(p.major);
    NumberRoundTrip(p.minor);
    NumberRoundTrip(p.patch);
    SectionRoundTrip(p.prerelease, IsPrereleaseIdentifier);
    SectionRoundTrip(p.build, IsBuildIdentifier);
  }

  /** Whatever the parser accepts is stored as parts that print and parse back to the same version. */
  lemma ParsedVersionsAreStorable(text: string)
    requires Parse(text).Some?
    requires |Stored(Parse(text).value).prerelease| <= MAX_PRERELEASE
    requires |Stored(Parse(text).value).build| <= MAX_BUILD
    ensures ValidParts(Stored(Parse(text).value))
    ensures Restored(Stored(Parse(text).value)) == Parse(text).value
  {
    var v := Parse(text).value;
    StoredIdentifiers(v.prerelease);
    StoredIdentifiers(v.build);
  }

  lemma StoredIdentifiers(ids: seq<string>)
    requires forall i :: 0 <= i < |ids| ==> IsBuildIdentifier(ids[i])
    ensures Identifiers(Join(ids, '.')) == ids
  {
    if ids != [] {
      SplitJoin(ids, '.');
      assert ids[0] != "";
    }
  }

  // ---- what the parser accepts ----

  /** Digits without a leading zero are how their number prints. */
  lemma {:induction false} DecimalIsUnique(s: string)
    requires IsNumericIdentifier(s)
    ensures ToDecimal(FromDecimal(s)) == s
    decreases |s|
  {
    var front, last := s[..|s| - 1], s[|s| - 1];
    assert s == front + [last];
    if front == "" {
      assert FromDecimal(front) == 0;
    } else {
      DecimalIsUnique(front);
      assert ToDecimal(0) == "0" && FromDecimal(front) > 0;
      assert FromDecimal(s) / 10 == FromDecimal(front) && FromDecimal(s) % 10 == last as int - '0' as int;
    }
  }

  lemma {:induction false} CutJoins(s: string, c: char)
    ensures var (before, after) := Cut(s, c); s == before + (if after.Some? then [c] + after.value else "")
  {
    if s != "" {
      CutJoins(s[1..], c);
      assert s == [s[0]] + s[1..];
    }
  }

  /** Digits, letters and dashes, at least one. */
  predicate Identifies(x: string) {
    x != "" && forall c :: c in x ==> '0' <= c <= '9' || 'a' <= c <= 'z' || 'A' <= c <= 'Z' || c == '-'
  }

  /** A number with a needless zero in front. */
  predicate IsPadded(x: string) {
    |x| > 1 && x[0] == '0' && forall c :: c in x ==> '0' <= c <= '9'
  }

  /** A version in the ranges and the alphabets of Semantic Versioning. */
  predicate IsVersion(v: SemVer) {
    && v.major <= 9007199254740991 && v.minor <= 9007199254740991 && v.patch <= 9007199254740991
    && (forall x :: x in v.prerelease ==> Identifies(x) && !IsPadded(x))
    && (forall x :: x in v.build ==> Identifies(x))
  }

  lemma IdentifierIff(x: string)
    ensures IsBuildIdentifier(x) <==> Identifies(x)
    ensures IsPrereleaseIdentifier(x) <==> Identifies(x) && !IsPadded(x)
  {
    assert forall i :: 0 <= i < |x| ==> x[i] in x;
  }

  lemma IsVersionIff(v: SemVer)
    ensures IsVersion(v)
       <==> && v.major <= MAX_SAFE_INTEGER && v.minor <= MAX_SAFE_INTEGER && v.patch <= MAX_SAFE_INTEGER
            && (forall x :: x in v.prerelease ==> IsPrereleaseIdentifier(x))
            && (forall x :: x in v.build ==> IsBuildIdentifier(x))
  {
    forall x {
      IdentifierIff(x);
    }
  }

  function PrintVersion(v: SemVer): string {
    PrintSemver(Stored(v))
  }

  lemma PrintedBodyParses(v: SemVer)
    requires IsVersion(v)
    ensures ParseBody(PrintVersion(v)) == Some(v)
  {
    var p := Stored(v);
    IsVersionIff(v);
    assert forall i :: 0 <= i < |v.prerelease| ==> v.prerelease[i] in v.prerelease;
    assert forall i :: 0 <= i < |v.build| ==> v.build[i] in v.build;
    StoredIdentifiers(v.prerelease);
    StoredIdentifiers(v.build);
    PrintedSections(p);
    CoreSplits(p);
    NumberRoundTrip(p.major);
    NumberRoundTrip(p.minor);
    NumberRoundTrip(p.patch);
    SectionRoundTrip(p.prerelease, IsPrereleaseIdentifier);
    SectionRoundTrip(p.build, IsBuildIdentifier);
  }

  /** A section that is there is not empty, and is its identifiers joined with dots. */
  lemma ParsedSection(mark: char, text: Option<string>, valid: string -> bool)
    requires ParseIdentifiers(text, valid).Some? && !valid("")
    ensures var ids := ParseIdentifiers(text, valid).value;
            && (if text.Some? then [mark] + text.value else "") == Section([mark], Join(ids, '.'))
            && forall x :: x in ids ==> valid(x)
  {
    if text.Some? {
      JoinSplit(text.value, '.');
      assert Split("", '.')[0] == "";
    }
  }

  lemma ParsedBodyIsPrinted(body: string)
    requires ParseBody(body).Some?
    ensures IsVersion(ParseBody(body).value) && body == PrintVersion(ParseBody(body).value)
  {
    var v := ParseBody(body).value;
    var (left, buildText) := Cut(body, '+');
    var (core, prereleaseText) := Cut(left, '-');
    CutJoins(body, '+');
    CutJoins(left, '-');
    ParsedSection('-', prereleaseText, IsPrereleaseIdentifier);
    ParsedSection('+', buildText, IsBuildIdentifier);
    ParsedCore(core);
    IsVersionIff(v);
  }

  lemma ParsedCore(core: string)
    requires var n := Split(core, '.'); |n| == 3 && IsNumericIdentifier(n[0]) && IsNumericIdentifier(n[1]) && IsNumericIdentifier(n[2])
    ensures var n := Split(core, '.');
            core == ToDecimal(FromDecimal(n[0])) + "." + ToDecimal(FromDecimal(n[1])) + "." + ToDecimal(FromDecimal(n[2]))
  {
    var n := Split(core, '.');
    JoinSplit(core, '.');
    assert n[1..][1..] == [n[2]] && Join(n[1..], '.') == n[1] + "." + n[2];
    assert core == n[0] + "." + (n[1] + "." + n[2]);
    DecimalIsUnique(n[0]);
    DecimalIsUnique(n[1]);
    DecimalIsUnique(n[2]);
  }

  /** `s` is `inner` between two stretches of white space. */
  predicate Surrounds(s: string, before: string, inner: string, after: string) {
    s == before + inner + after && forall c :: c in before || c in after ==> IsWhitespace(c)
  }

  lemma MoreInFront(s: string, before: string, inner: string, after: string)
    requires s != "" && IsWhitespace(s[0]) && Surrounds(s[1..], before, inner, after)
    ensures Surrounds(s, [s[0]] + before, inner, after)
  {
    assert s == [s[0]] + s[1..];
    Associative([s[0]], before + inner, after);
    Associative([s[0]], before, inner);
  }

  lemma MoreBehind(s: string, before: string, inner: string, after: string)
    requires s != "" && IsWhitespace(s[|s| - 1]) && Surrounds(s[..|s| - 1], before, inner, after)
    ensures Surrounds(s, before, inner, after + [s[|s| - 1]])
  {
    assert s == s[..|s| - 1] + [s[|s| - 1]];
    Associative(before + inner, after, [s[|s| - 1]]);
  }

  /** The white space around the text is gone, and nothing else. */
  lemma {:induction false} TrimMeaning(s: string) returns (before: string, after: string)
    ensures Surrounds(s, before, Trim(s), after)
    ensures Trim(s) != "" ==> !IsWhitespace(Trim(s)[0]) && !IsWhitespace(Trim(s)[|Trim(s)| - 1])
    decreases |s|
  {
    before, after := "", "";
    if s != "" {
      if IsWhitespace(s[0]) {
        before, after := TrimMeaning(s[1..]);
        MoreInFront(s, before, Trim(s), after);
        before := [s[0]] + before;
      } else if IsWhitespace(s[|s| - 1]) {
        before, after := TrimMeaning(s[..|s| - 1]);
        MoreBehind(s, before, Trim(s), after);
        after := after + [s[|s| - 1]];
      }
    }
  }

  lemma PrintedWithoutMark(v: SemVer)
    ensures WithoutMark(PrintVersion(v)) == PrintVersion(v) && WithoutMark("v" + PrintVersion(v)) == PrintVersion(v)
  {
    assert PrintVersion(v)[0] == ToDecimal(v.major)[0];
  }

  lemma MarkJoins(trimmed: string)
    ensures trimmed == WithoutMark(trimmed) || trimmed == "v" + WithoutMark(trimmed)
  {
  }

  lemma ParsedTextIsPrinted(trimmed: string)
    requires ParseBody(WithoutMark(trimmed)).Some?
    ensures var v := ParseBody(WithoutMark(trimmed)).value;
            IsVersion(v) && (trimmed == PrintVersion(v) || trimmed == "v" + PrintVersion(v))
  {
    MarkJoins(trimmed);
    ParsedBodyIsPrinted(WithoutMark(trimmed));
  }

  /** The parser accepts the printed versions, with a `v` in front or not, and nothing else: which one, the text says. */
  lemma ParseIff(text: string, v: SemVer)
    ensures Parse(text) == Some(v)
       <==> |text| <= 256 && IsVersion(v) && (Trim(text) == PrintVersion(v) || Trim(text) == "v" + PrintVersion(v))
  {
    if |text| <= 256 && IsVersion(v) {
      PrintedBodyParses(v);
      PrintedWithoutMark(v);
    }
    if Parse(text).Some? {
      ParsedTextIsPrinted(Trim(text));
    }
  }
}
