/**
  The computed fields of `release-additions.ts`: the `semver` and `raw version` expressions, the texts they mean,
  and that a raw version identifies a finalized release of an application and variant.
 */
module RawVersion {
  import opened Basics
  import opened Releases
  import opened RevisionProtocol
  import opened RevisionProperties
  import opened SemverText
  import Sql = SqlText

  // ---- the expressions ----

  const REVISION := Sql.Field("revision")
  const MAJOR := Sql.Field("semver major")
  const MINOR := Sql.Field("semver minor")
  const PATCH := Sql.Field("semver patch")
  const PRERELEASE := Sql.Field("semver prerelease")
  const BUILD := Sql.Field("semver build")
  const VARIANT := Sql.Field("variant")
  const CREATED_AT := Sql.Cast(Sql.Floor(Sql.Multiply(Sql.TotalSeconds("created at"), 1000)))
  const NOTHING := Sql.EmbeddedText("")

  const HAS_PRERELEASE := Sql.NotEquals(PRERELEASE, "")
  const HAS_BUILD := Sql.NotEquals(BUILD, "")
  const HAS_VARIANT := Sql.NotEquals(VARIANT, "")
  const HAS_POSITIVE_REVISION := Sql.GreaterThan("revision", 0)
  const IS_DRAFT := Sql.Not(Sql.Exists(REVISION))

  function RevN(): Sql.Node {
    Sql.SqlConcat(["rev", ""], [Sql.Expression(REVISION)])
  }

  function VersionCore(): Sql.Node {
    Sql.SqlConcat(["", ".", ".", ""], [Sql.Expression(MAJOR), Sql.Expression(MINOR), Sql.Expression(PATCH)])
  }

  function WhenShown(c: Sql.Condition, mark: string, field: Sql.Node): Sql.Node {
    Sql.Cast(Sql.Case(c, Sql.SqlConcat([mark, ""], [Sql.Expression(field)]), Some(NOTHING)))
  }

  function SemverField(): Sql.Node {
    Sql.SqlConcat(["", "", "", ""],
                  [Sql.Expression(VersionCore()), Sql.Expression(WhenShown(HAS_PRERELEASE, "-", PRERELEASE)),
                   Sql.Expression(WhenShown(HAS_BUILD, "+", BUILD))])
  }

  function PrereleaseParts(): seq<Sql.Part> {
    [Sql.Part(HAS_PRERELEASE, PRERELEASE), Sql.Part(IS_DRAFT, CREATED_AT)]
  }

  function VersionCoreAndPrerelease(): Sql.Node {
    Sql.SqlConcat(["", "", ""],
                  [Sql.Expression(VersionCore()), Sql.Expression(Sql.JoinTextPartsAndPrefix("-", '.', PrereleaseParts()))])
  }

  function HasPositiveRevisionNotInBuild(): Sql.Condition {
    Sql.And(HAS_POSITIVE_REVISION,
            Sql.Not(Sql.Like(Sql.SqlConcat([".", "."], [Sql.Expression(BUILD)]), Sql.SqlConcat(["%.", ".%"], [Sql.Expression(RevN())]))))
  }

  function BuildParts(): seq<Sql.Part> {
    [Sql.Part(HAS_BUILD, BUILD), Sql.Part(HasPositiveRevisionNotInBuild(), RevN()), Sql.Part(HAS_VARIANT, VARIANT)]
  }

  function PlusSign(): Sql.Node {
    Sql.Cast(Sql.Case(Sql.Or([HAS_BUILD, HAS_POSITIVE_REVISION, HAS_VARIANT]), Sql.EmbeddedText("+"), Some(NOTHING)))
  }

  function RawVersionField(): Sql.Node {
    Sql.SqlConcat(["", "", "", ""],
                  [Sql.Expression(VersionCoreAndPrerelease()), Sql.Expression(PlusSign()),
                   Sql.Expression(Sql.JoinTextParts('.', BuildParts()))])
  }

  /** A stored release, created at some microsecond, as the expressions see it. */
  function RowOf(r: Release, createdAt: nat): Sql.Row {
    Sql.Row(map["revision" := if r.revision.Some? then Some(Sql.Number(r.revision.value)) else None,
                "semver major" := Some(Sql.Number(r.parts.major)),
                "semver minor" := Some(Sql.Number(r.parts.minor)),
                "semver patch" := Some(Sql.Number(r.parts.patch)),
                "semver prerelease" := Some(Sql.Text(r.parts.prerelease)),
                "semver build" := Some(Sql.Text(r.parts.build)),
                "variant" := Some(Sql.Text(r.variant))],
            map["created at" := createdAt])
  }

  // ---- the texts ----

  function Tag(revision: nat): string {
    "rev" + ToDecimal(revision)
  }

  predicate IsPositive(r: Release) {
    r.revision.Some? && r.revision.value > 0
  }

  /** A positive revision that the build does not mention is appended to it. */
  predicate AppendsTag(r: Release) {
    IsPositive(r) && Tag(r.revision.value) !in Identifiers(r.parts.build)
  }

  function Milliseconds(microseconds: nat): nat {
    microseconds / 1000
  }

  function PrereleaseItems(r: Release, createdAt: nat): seq<string> {
    (if r.parts.prerelease != "" then [r.parts.prerelease] else []) + (if r.revision.None? then [ToDecimal(Milliseconds(createdAt))] else [])
  }

  function TaggedBuild(r: Release): seq<string> {
    (if r.parts.build != "" then [r.parts.build] else []) + (if AppendsTag(r) then [Tag(r.revision.value)] else [])
  }

  function BuildItems(r: Release): seq<string> {
    TaggedBuild(r) + (if r.variant != "" then [r.variant] else [])
  }

  predicate HasPlus(r: Release) {
    r.parts.build != "" || IsPositive(r) || r.variant != ""
  }

  function RawText(r: Release, createdAt: nat): string {
    var items := PrereleaseItems(r, createdAt);
    Core(r.parts) + ((if items != [] then "-" else "") + Join(items, '.'))
      + (if HasPlus(r) then "+" else "") + Join(BuildItems(r), '.')
  }

  // ---- the expressions mean the texts ----

  lemma CoreMeaning(r: Release, createdAt: nat)
    ensures Sql.Eval(VersionCore(), RowOf(r, createdAt)) == Some(Core(r.parts))
  {
    var strings, texts := ["", ".", ".", ""], [ToDecimal(r.parts.major), ToDecimal(r.parts.minor), ToDecimal(r.parts.patch)];
    var row := RowOf(r, createdAt);
    assert Sql.Eval(MAJOR, row) == Some(texts[0]) && Sql.Eval(MINOR, row) == Some(texts[1]) && Sql.Eval(PATCH, row) == Some(texts[2]);
    Sql.PlainIsOneLined(strings);
    Sql.TemplateMeaning(strings, [Sql.Expression(MAJOR), Sql.Expression(MINOR), Sql.Expression(PATCH)], texts, row);
    InterleaveThree(strings, texts);
    assert "" + texts[0] + "." + texts[1] + "." + texts[2] + "" == Core(r.parts);
  }

  lemma InterleaveThree(strings: seq<string>, texts: seq<string>)
    requires |strings| == 4 && |texts| == 3
    ensures Sql.Interleave(strings, texts)
         == strings[0] + texts[0] + strings[1] + texts[1] + strings[2] + texts[2] + strings[3]
  {
    InterleaveTwo(strings[..3], texts[..2]);
  }

  lemma InterleaveTwo(strings: seq<string>, texts: seq<string>)
    requires |strings| == 3 && |texts| == 2
    ensures Sql.Interleave(strings, texts) == strings[0] + texts[0] + strings[1] + texts[1] + strings[2]
  {
    InterleaveOne(strings[..2], texts[..1]);
  }

  lemma InterleaveOne(strings: seq<string>, texts: seq<string>)
    requires |strings| == 2 && |texts| == 1
    ensures Sql.Interleave(strings, texts) == strings[0] + texts[0] + strings[1]
  {
    assert Sql.Interleave(strings[..1], texts[..0]) == strings[0];
  }

  /** A template around one expression. */
  lemma WrapMeaning(before: string, node: Sql.Node, after: string, text: string, row: Sql.Row)
    requires Sql.Eval(node, row) == Some(text) && '\n' !in before && '\n' !in after
    ensures Sql.Eval(Sql.SqlConcat([before, after], [Sql.Expression(node)]), row) == Some(before + text + after)
  {
    Sql.PlainIsOneLined([before, after]);
    Sql.TemplateMeaning([before, after], [Sql.Expression(node)], [text], row);
    InterleaveOne([before, after], [text]);
  }

  lemma WhenShownMeaning(c: Sql.Condition, mark: string, field: Sql.Node, section: string, row: Sql.Row)
    requires '\n' !in mark && Sql.Eval(field, row) == Some(section) && Sql.Holds(c, row) == Some(section != "")
    ensures Sql.Eval(WhenShown(c, mark, field), row) == Some(Section(mark, section))
  {
    WrapMeaning(mark, field, "", section, row);
    var shown := WhenShown(c, mark, field);
    assert mark + section + "" == mark + section;
    assert Sql.Eval(shown.node, row)
        == if section != "" then Sql.Eval(Sql.SqlConcat([mark, ""], [Sql.Expression(field)]), row) else Sql.Eval(NOTHING, row);
  }

  /** A template of three expressions and nothing else. */
  lemma ThreeMeaning(a: Sql.Node, b: Sql.Node, c: Sql.Node, ta: string, tb: string, tc: string, row: Sql.Row)
    requires Sql.Eval(a, row) == Some(ta) && Sql.Eval(b, row) == Some(tb) && Sql.Eval(c, row) == Some(tc)
    ensures Sql.Eval(Sql.SqlConcat(["", "", "", ""], [Sql.Expression(a), Sql.Expression(b), Sql.Expression(c)]), row) == Some(ta + tb + tc)
  {
    Sql.PlainIsOneLined(["", "", "", ""]);
    Sql.TemplateMeaning(["", "", "", ""], [Sql.Expression(a), Sql.Expression(b), Sql.Expression(c)], [ta, tb, tc], row);
    InterleaveThree(["", "", "", ""], [ta, tb, tc]);
    assert "" + ta + "" + tb + "" + tc + "" == ta + tb + tc;
  }

  lemma TwoMeaning(a: Sql.Node, b: Sql.Node, ta: string, tb: string, row: Sql.Row)
    requires Sql.Eval(a, row) == Some(ta) && Sql.Eval(b, row) == Some(tb)
    ensures Sql.Eval(Sql.SqlConcat(["", "", ""], [Sql.Expression(a), Sql.Expression(b)]), row) == Some(ta + tb)
  {
    Sql.PlainIsOneLined(["", "", ""]);
    Sql.TemplateMeaning(["", "", ""], [Sql.Expression(a), Sql.Expression(b)], [ta, tb], row);
    InterleaveTwo(["", "", ""], [ta, tb]);
    assert "" + ta + "" + tb + "" == ta + tb;
  }

  /** The `semver` field prints the stored parts. */
  lemma SemverFieldMeaning(r: Release, createdAt: nat)
    ensures Sql.Eval(SemverField(), RowOf(r, createdAt)) == Some(PrintSemver(r.parts))
  {
    var row := RowOf(r, createdAt);
    CoreMeaning(r, createdAt);
    WhenShownMeaning(HAS_PRERELEASE, "-", PRERELEASE, r.parts.prerelease, row);
    WhenShownMeaning(HAS_BUILD, "+", BUILD, r.parts.build, row);
    ThreeMeaning(VersionCore(), WhenShown(HAS_PRERELEASE, "-", PRERELEASE), WhenShown(HAS_BUILD, "+", BUILD),
                 Core(r.parts), Section("-", r.parts.prerelease), Section("+", r.parts.build), row);
  }

  /** A LIKE of known texts, negated. */
  lemma NotLikeMeaning(subject: Sql.Node, pattern: Sql.Node, s: string, p: string, row: Sql.Row)
    requires Sql.Eval(subject, row) == Some(s) && Sql.Eval(pattern, row) == Some(p)
    ensures Sql.Holds(Sql.Not(Sql.Like(subject, pattern)), row) == Some(!Sql.Matches(s, p))
  {
    assert Sql.Holds(Sql.Like(subject, pattern), row) == Some(Sql.Matches(s, p));
  }

  /** `.build.` matches `%.revN.%` when the build has the tag as one of its identifiers. */
  lemma TagSearch(build: string, n: nat)
    ensures Sql.Matches("." + build + ".", "%." + Tag(n) + ".%") <==> Tag(n) in Identifiers(build)
  {
    var needle := "." + Tag(n) + ".";
    assert "%." + Tag(n) + ".%" == "%" + needle + "%";
    Sql.LikeIsContains("." + build + ".", needle);
    Sql.DottedSearch(build, Tag(n));
    EmptyBuildHasNoTag(n);
  }

  lemma RevNMeaning(r: Release, createdAt: nat)
    requires r.revision.Some?
    ensures Sql.Eval(RevN(), RowOf(r, createdAt)) == Some(Tag(r.revision.value))
  {
    var row := RowOf(r, createdAt);
    WrapMeaning("rev", REVISION, "", ToDecimal(r.revision.value), row);
    assert "rev" + ToDecimal(r.revision.value) + "" == Tag(r.revision.value);
  }

  lemma BothHold(left: Sql.Condition, right: Sql.Condition, row: Sql.Row)
    ensures Sql.Holds(Sql.And(left, right), row) == Some(true)
        <==> Sql.Holds(left, row) == Some(true) && Sql.Holds(right, row) == Some(true)
  {
  }

  /** The LIKE test on the dotted build is membership of the tag among the build identifiers. */
  lemma LikeIsMembership(r: Release, createdAt: nat)
    ensures Sql.Holds(HasPositiveRevisionNotInBuild(), RowOf(r, createdAt)) == Some(true) <==> AppendsTag(r)
    ensures r.revision.Some? ==> Sql.Eval(RevN(), RowOf(r, createdAt)) == Some(Tag(r.revision.value))
  {
    var row := RowOf(r, createdAt);
    var subject, pattern := Sql.SqlConcat([".", "."], [Sql.Expression(BUILD)]), Sql.SqlConcat(["%.", ".%"], [Sql.Expression(RevN())]);
    BothHold(HAS_POSITIVE_REVISION, Sql.Not(Sql.Like(subject, pattern)), row);
    assert Sql.Holds(HAS_POSITIVE_REVISION, row) == (if r.revision.Some? then Some(IsPositive(r)) else None);
    if r.revision.Some? {
      var tag := Tag(r.revision.value);
      RevNMeaning(r, createdAt);
      WrapMeaning(".", BUILD, ".", r.parts.build, row);
      WrapMeaning("%.", RevN(), ".%", tag, row);
      NotLikeMeaning(subject, pattern, "." + r.parts.build + ".", "%." + tag + ".%", row);
      TagSearch(r.parts.build, r.revision.value);
    }
  }

  lemma EmptyBuildHasNoTag(n: nat)
    ensures Tag(n) !in Split("", '.')
  {
    assert |Tag(n)| > 0;
  }

  lemma PrereleaseMeaning(r: Release, createdAt: nat)
    ensures Sql.Eval(Sql.JoinTextPartsAndPrefix("-", '.', PrereleaseParts()), RowOf(r, createdAt))
         == Some((if PrereleaseItems(r, createdAt) != [] then "-" else "") + Join(PrereleaseItems(r, createdAt), '.'))
  {
    Sql.JoinedPartsMeaning("-", '.', PrereleaseParts(), RowOf(r, createdAt));
    PrereleaseShown(r, createdAt);
  }

  /** The seconds since 1970 times a thousand, rounded down, are the whole milliseconds. */
  lemma CreatedAtMeaning(r: Release, createdAt: nat)
    ensures Sql.Eval(CREATED_AT, RowOf(r, createdAt)) == Some(ToDecimal(Milliseconds(createdAt)))
  {
    var row, ms := RowOf(r, createdAt), Sql.Multiply(Sql.TotalSeconds("created at"), 1000);
    assert Sql.Amount(Sql.TotalSeconds("created at"), row) == Some(createdAt as real / 1000000.0);
    assert Sql.Amount(ms, row) == Some(createdAt as real / 1000000.0 * 1000.0);
    RoundedDown(createdAt);
    assert Sql.Eval(CREATED_AT, row) == Sql.Eval(Sql.Floor(ms), row);
  }

  lemma RoundedDown(microseconds: nat)
    ensures (microseconds as real / 1000000.0 * 1000.0).Floor == Milliseconds(microseconds)
  {
    var q, r := microseconds / 1000, microseconds % 1000;
    assert microseconds == 1000 * q + r;
    var v := microseconds as real / 1000000.0 * 1000.0;
    assert v == q as real + r as real / 1000.0;
    assert q as real <= v < q as real + 1.0;
  }

  lemma PrereleaseShown(r: Release, createdAt: nat)
    ensures Sql.Shown(PrereleaseParts(), RowOf(r, createdAt)) == PrereleaseItems(r, createdAt)
    ensures Sql.SomeShown(PrereleaseParts(), RowOf(r, createdAt)) <==> PrereleaseItems(r, createdAt) != []
  {
    var row, parts := RowOf(r, createdAt), PrereleaseParts();
    assert Sql.Holds(parts[0].show, row) == Some(r.parts.prerelease != "");
    assert Sql.Holds(Sql.Exists(REVISION), row) == Some(r.revision.Some?);
    assert Sql.Holds(parts[1].show, row) == Some(r.revision.None?);
    assert Sql.Eval(parts[0].value, row) == Some(r.parts.prerelease) && Sql.Eval(parts[1].value, row) == Some(ToDecimal(Milliseconds(createdAt))) by {
      CreatedAtMeaning(r, createdAt);
    }
    assert parts[1..][1..] == [] && Sql.Shown([], row) == [];
    assert Sql.Shown(parts[1..], row) == if r.revision.None? then [ToDecimal(Milliseconds(createdAt))] else [];
    assert parts[0] in parts && parts[1] in parts;
  }

  lemma BuildMeaning(r: Release, createdAt: nat)
    ensures Sql.Eval(Sql.JoinTextParts('.', BuildParts()), RowOf(r, createdAt)) == Some(Join(BuildItems(r), '.'))
  {
    Sql.JoinedPartsMeaning("", '.', BuildParts(), RowOf(r, createdAt));
    BuildShown(r, createdAt);
  }

  lemma BuildShown(r: Release, createdAt: nat)
    ensures Sql.Shown(BuildParts(), RowOf(r, createdAt)) == BuildItems(r)
  {
    var row := RowOf(r, createdAt);
    LikeIsMembership(r, createdAt);
    ThreeShown(Sql.Part(HAS_BUILD, BUILD), Sql.Part(HasPositiveRevisionNotInBuild(), RevN()), Sql.Part(HAS_VARIANT, VARIANT), row);
    assert ShownOne(Sql.Part(HAS_BUILD, BUILD), row) == if r.parts.build != "" then [r.parts.build] else [];
    assert ShownOne(Sql.Part(HAS_VARIANT, VARIANT), row) == if r.variant != "" then [r.variant] else [];
  }

  function ShownOne(p: Sql.Part, row: Sql.Row): seq<string> {
    if Sql.Holds(p.show, row) == Some(true) && Sql.Eval(p.value, row).Some? then [Sql.Eval(p.value, row).value] else []
  }

  lemma ThreeShown(a: Sql.Part, b: Sql.Part, c: Sql.Part, row: Sql.Row)
    ensures Sql.Shown([a, b, c], row) == ShownOne(a, row) + ShownOne(b, row) + ShownOne(c, row)
  {
    assert [a, b, c][1..] == [b, c] && [b, c][1..] == [c] && [c][1..] == [];
    assert Sql.Shown([c], row) == ShownOne(c, row);
    assert Sql.Shown([b, c], row) == ShownOne(b, row) + ShownOne(c, row);
  }

  lemma PlusMeaning(r: Release, createdAt: nat)
    ensures Sql.Eval(PlusSign(), RowOf(r, createdAt)) == Some(if HasPlus(r) then "+" else "")
  {
    var row := RowOf(r, createdAt);
    var cs := [HAS_BUILD, HAS_POSITIVE_REVISION, HAS_VARIANT];
    assert Sql.Holds(cs[0], row) == Some(r.parts.build != "") && Sql.Holds(cs[2], row) == Some(r.variant != "");
    assert Sql.Holds(cs[1], row) == (if r.revision.Some? then Some(IsPositive(r)) else None);
    assert cs[1..][1..] == [HAS_VARIANT] && cs[1..][1..][1..] == [];
    assert Sql.AnyHolds([], row) == Some(false);
    assert Sql.AnyHolds([HAS_VARIANT], row) == Some(r.variant != "");
    assert Sql.AnyHolds(cs[1..], row) == Some(true) <==> IsPositive(r) || r.variant != "";
    assert Sql.AnyHolds(cs, row) == Some(true) <==> HasPlus(r);
    assert Sql.Eval(PlusSign().node, row) == if HasPlus(r) then Sql.Eval(Sql.EmbeddedText("+"), row) else Sql.Eval(NOTHING, row);
  }

  lemma CoreAndPrereleaseMeaning(r: Release, createdAt: nat)
    ensures Sql.Eval(VersionCoreAndPrerelease(), RowOf(r, createdAt))
         == Some(Core(r.parts) + ((if PrereleaseItems(r, createdAt) != [] then "-" else "") + Join(PrereleaseItems(r, createdAt), '.')))
  {
    var items := PrereleaseItems(r, createdAt);
    CoreMeaning(r, createdAt);
    PrereleaseMeaning(r, createdAt);
    TwoMeaning(VersionCore(), Sql.JoinTextPartsAndPrefix("-", '.', PrereleaseParts()),
               Core(r.parts), (if items != [] then "-" else "") + Join(items, '.'), RowOf(r, createdAt));
  }

  /** The `raw version` field of a draft or finalized release. */
  lemma RawVersionMeaning(r: Release, createdAt: nat)
    ensures Sql.Eval(RawVersionField(), RowOf(r, createdAt)) == Some(RawText(r, createdAt))
  {
    var row, items := RowOf(r, createdAt), PrereleaseItems(r, createdAt);
    CoreAndPrereleaseMeaning(r, createdAt);
    PlusMeaning(r, createdAt);
    BuildMeaning(r, createdAt);
    ThreeMeaning(VersionCoreAndPrerelease(), PlusSign(), Sql.JoinTextParts('.', BuildParts()),
                 Core(r.parts) + ((if items != [] then "-" else "") + Join(items, '.')),
                 if HasPlus(r) then "+" else "", Join(BuildItems(r), '.'), row);
  }

  // ---- the texts, spelled out ----

  /** Each item behind a dot. */
  function Dotted(items: seq<string>): string {
    if items == [] then "" else "." + items[0] + Dotted(items[1..])
  }

  lemma {:induction false} DottedConcat(a: seq<string>, b: seq<string>)
    ensures Dotted(a + b) == Dotted(a) + Dotted(b)
  {
    if a == [] {
      assert a + b == b;
    } else {
      assert (a + b)[1..] == a[1..] + b;
      DottedConcat(a[1..], b);
    }
  }

  lemma {:induction false} DottedIsJoin(items: seq<string>)
    requires items != []
    ensures Dotted(items) == "." + Join(items, '.')
  {
    if |items| > 1 {
      DottedIsJoin(items[1..]);
    } else {
      assert Dotted(items[1..]) == "";
    }
  }

  lemma DottedOne(item: string)
    ensures Dotted([item]) == "." + item
  {
    DottedIsJoin([item]);
  }

  /** The prerelease section: the prerelease, and the milliseconds of creation of a draft. */
  lemma PrereleaseSpelled(r: Release, createdAt: nat)
    ensures Dotted(PrereleaseItems(r, createdAt)) == (if r.parts.prerelease != "" then "." + r.parts.prerelease else "")
                                                     + (if r.revision.None? then "." + ToDecimal(createdAt / 1000) else "")
  {
    var first := if r.parts.prerelease != "" then [r.parts.prerelease] else [];
    var second := if r.revision.None? then [ToDecimal(createdAt / 1000)] else [];
    DottedConcat(first, second);
    DottedOne(r.parts.prerelease);
    DottedOne(ToDecimal(createdAt / 1000));
  }

  /** The build section: the build, a positive revision that it does not mention, and the variant. */
  lemma BuildSpelled(r: Release)
    ensures Dotted(BuildItems(r)) == (if r.parts.build != "" then "." + r.parts.build else "")
                                     + (if r.revision.Some? && r.revision.value > 0
                                           && "rev" + ToDecimal(r.revision.value) !in Split(r.parts.build, '.')
                                        then ".rev" + ToDecimal(r.revision.value) else "")
                                     + (if r.variant != "" then "." + r.variant else "")
  {
    var first := if r.parts.build != "" then [r.parts.build] else [];
    var third := if r.variant != "" then [r.variant] else [];
    DottedOne(r.parts.build);
    DottedOne(r.variant);
    if r.revision.Some? {
      EmptyBuildHasNoTag(r.revision.value);
      DottedOne(Tag(r.revision.value));
      assert "." + Tag(r.revision.value) == ".rev" + ToDecimal(r.revision.value);
    }
    DottedConcat(first, if AppendsTag(r) then [Tag(r.revision.value)] else []);
    DottedConcat(TaggedBuild(r), third);
  }

  /** A raw version: the version core, then the two sections, each behind its mark if there is anything in it. */
  lemma RawTextSpelled(r: Release, createdAt: nat)
    ensures var before := (if r.parts.prerelease != "" then "." + r.parts.prerelease else "")
                          + (if r.revision.None? then "." + ToDecimal(createdAt / 1000) else "");
            var after := (if r.parts.build != "" then "." + r.parts.build else "")
                         + (if r.revision.Some? && r.revision.value > 0
                               && "rev" + ToDecimal(r.revision.value) !in Split(r.parts.build, '.')
                            then ".rev" + ToDecimal(r.revision.value) else "")
                         + (if r.variant != "" then "." + r.variant else "");
            RawText(r, createdAt) == ToDecimal(r.parts.major) + "." + ToDecimal(r.parts.minor) + "." + ToDecimal(r.parts.patch)
                                     + (if before == "" then "" else "-" + before[1..])
                                     + (if after == "" then "" else "+" + after[1..])
  {
    PrereleaseSpelled(r, createdAt);
    BuildSpelled(r);
    Marked("-", PrereleaseItems(r, createdAt));
    Marked("+", BuildItems(r));
    PlusIff(r);
  }

  lemma Marked(mark: string, items: seq<string>)
    ensures (if items != [] then mark else "") + Join(items, '.') == if Dotted(items) == "" then "" else mark + Dotted(items)[1..]
  {
    if items != [] {
      DottedIsJoin(items);
    }
  }

  lemma PlusIff(r: Release)
    ensures HasPlus(r) <==> BuildItems(r) != []
  {
    if IsPositive(r) {
      EmptyBuildHasNoTag(r.revision.value);
    }
  }

  // ---- a raw version identifies a finalized release ----

  lemma {:induction false} SplitAppend(a: string, sep: char, b: string)
    ensures Split(a + [sep] + b, sep) == Split(a, sep) + Split(b, sep)
  {
    var whole := a + [sep] + b;
    if a == "" {
      assert whole == [sep] + b && whole[1..] == b;
    } else {
      SplitAppend(a[1..], sep, b);
      assert whole[0] == a[0] && whole[1..] == a[1..] + [sep] + b;
      SplitHead(a, sep, b, Split(a[1..], sep), Split(b, sep));
    }
  }

  /** The first character joins the first piece or starts a new one, whatever follows. */
  lemma SplitHead(a: string, sep: char, b: string, pieces: seq<string>, more: seq<string>)
    requires a != "" && pieces == Split(a[1..], sep)
    ensures (if a[0] == sep then [""] + (pieces + more) else [[a[0]] + (pieces + more)[0]] + (pieces + more)[1..])
         == Split(a, sep) + more
  {
  }

  /** The raw version of a finalized release before its build. */
  function LeftHalf(p: Parts): string {
    Core(p) + Section("-", p.prerelease)
  }

  lemma RawTextOfFinal(r: Release, createdAt: nat)
    requires IsFinal(r)
    ensures RawText(r, createdAt) == if HasPlus(r) then LeftHalf(r.parts) + ['+'] + Join(BuildItems(r), '.') else LeftHalf(r.parts)
  {
    var items := PrereleaseItems(r, createdAt);
    assert items == if r.parts.prerelease != "" then [r.parts.prerelease] else [];
    assert (if items != [] then "-" else "") + Join(items, '.') == Section("-", r.parts.prerelease);
    if !HasPlus(r) {
      assert BuildItems(r) == [];
    }
  }

  lemma LeftHalfCuts(p: Parts)
    requires ValidParts(p)
    ensures '+' !in LeftHalf(p)
    ensures Cut(LeftHalf(p), '-') == (Core(p), if p.prerelease != "" then Some(p.prerelease) else None)
  {
    CoreSplits(p);
    SectionChars(p.prerelease);
    assert '-' !in Core(p);
    CutAt(Core(p), '-', p.prerelease);
    assert LeftHalf(p) == if p.prerelease != "" then Core(p) + ['-'] + p.prerelease else Core(p);
  }

  /** The two halves of the raw version of a finalized release, around its first `+`. */
  lemma Halves(r: Release, createdAt: nat)
    requires IsFinal(r) && ValidParts(r.parts)
    ensures var left := LeftHalf(r.parts);
            && Cut(RawText(r, createdAt), '+') == (left, if HasPlus(r) then Some(Join(BuildItems(r), '.')) else None)
            && Cut(left, '-') == (Core(r.parts), if r.parts.prerelease != "" then Some(r.parts.prerelease) else None)
  {
    LeftHalfCuts(r.parts);
    RawTextOfFinal(r, createdAt);
    CutAt(LeftHalf(r.parts), '+', Join(BuildItems(r), '.'));
  }

  /** Equal left halves come from the same version core and prerelease. */
  lemma LeftHalfDetermines(p: Parts, q: Parts)
    requires ValidParts(p) && ValidParts(q)
    requires Core(p) == Core(q)
    ensures p.major == q.major && p.minor == q.minor && p.patch == q.patch
  {
    CoreSplits(p);
    CoreSplits(q);
    var a, b := Split(Core(p), '.'), Split(Core(q), '.');
    assert a[0] == b[0] && a[1] == b[1] && a[2] == b[2];
    ToDecimalInjective(p.major, q.major);
    ToDecimalInjective(p.minor, q.minor);
    ToDecimalInjective(p.patch, q.patch);
  }

  function TaggedIdentifiers(r: Release): seq<string> {
    Identifiers(r.parts.build) + (if AppendsTag(r) then [Tag(r.revision.value)] else [])
  }

  lemma TaggedBuildIdentifiers(r: Release)
    ensures Identifiers(Join(TaggedBuild(r), '.')) == TaggedIdentifiers(r)
    ensures TaggedBuild(r) == [] <==> Join(TaggedBuild(r), '.') == ""
  {
    var build := r.parts.build;
    if AppendsTag(r) {
      var tag := Tag(r.revision.value);
      assert '.' !in tag;
      SplitConcat(tag, '.', "");
      if build != "" {
        assert TaggedBuild(r) == [build, tag];
        assert TaggedBuild(r)[1..] == [tag];
        assert Join(TaggedBuild(r), '.') == build + ['.'] + tag;
        SplitAppend(build, '.', tag);
      } else {
        assert TaggedBuild(r) == [tag];
      }
    } else if build != "" {
      assert TaggedBuild(r) == [build];
    }
  }

  /** With the variant known, the right half gives the tagged build back. */
  lemma VariantComesOff(r: Release, q: Release)
    requires r.variant == q.variant
    requires Join(BuildItems(r), '.') == Join(BuildItems(q), '.')
    ensures Join(TaggedBuild(r), '.') == Join(TaggedBuild(q), '.')
  {
    if r.variant != "" {
      JoinWithVariant(TaggedBuild(r), r.variant);
      JoinWithVariant(TaggedBuild(q), r.variant);
      TaggedBuildIdentifiers(r);
      TaggedBuildIdentifiers(q);
      var a, b := Join(TaggedBuild(r), '.'), Join(TaggedBuild(q), '.');
      var whole := Join(BuildItems(r), '.');
      if a != "" && b != "" {
        assert |a| == |b| == |whole| - |r.variant| - 1;
        assert a == whole[..|a|] && b == whole[..|b|];
      }
    } else {
      assert BuildItems(r) == TaggedBuild(r) && BuildItems(q) == TaggedBuild(q);
    }
  }

  lemma {:induction false} JoinWithVariant(items: seq<string>, variant: string)
    ensures Join(items + [variant], '.') == if items == [] then variant else Join(items, '.') + ['.'] + variant
  {
    if items != [] {
      assert (items + [variant])[1..] == items[1..] + [variant];
      JoinWithVariant(items[1..], variant);
    }
  }

  lemma TagIsRevisionTag(n: nat)
    ensures IsRevisionTag(Tag(n)) && Tag(n)[3..] == ToDecimal(n)
  {
  }

  /** Every tag among the identifiers names the revision, and a positive revision has its tag there. */
  lemma TagsNameRevision(r: Release)
    requires IsFinal(r) && TagsAgree(r)
    ensures BuildAgrees(TaggedIdentifiers(r), r.revision.value)
    ensures IsPositive(r) ==> Tag(r.revision.value) in TaggedIdentifiers(r)
  {
    TagIsRevisionTag(r.revision.value);
  }

  lemma SameIdentifiersSameRevision(r: Release, q: Release)
    requires IsFinal(r) && IsFinal(q) && TagsAgree(r) && TagsAgree(q)
    requires TaggedIdentifiers(r) == TaggedIdentifiers(q)
    ensures r.revision == q.revision
  {
    TagsNameRevision(r);
    TagsNameRevision(q);
    var m, n := r.revision.value, q.revision.value;
    TagIsRevisionTag(m);
    TagIsRevisionTag(n);
    if m > 0 || n > 0 {
      assert ToDecimal(m) == ToDecimal(n);
      ToDecimalInjective(m, n);
    }
  }

  lemma TaggedIdentifiersDetermine(r: Release, q: Release)
    requires TaggedIdentifiers(r) == TaggedIdentifiers(q)
    ensures Join(TaggedBuild(r), '.') == Join(TaggedBuild(q), '.')
    ensures TaggedBuild(r) == [] <==> TaggedBuild(q) == []
  {
    TaggedBuildIdentifiers(r);
    TaggedBuildIdentifiers(q);
    JoinSplit(Join(TaggedBuild(r), '.'), '.');
    JoinSplit(Join(TaggedBuild(q), '.'), '.');
  }

  /** The build identifiers, the appended tag among them, and the variant decide what stands behind the `+`. */
  lemma RightHalfDetermined(r: Release, q: Release)
    requires TaggedIdentifiers(r) == TaggedIdentifiers(q) && r.variant == q.variant
    ensures HasPlus(r) == HasPlus(q) && Join(BuildItems(r), '.') == Join(BuildItems(q), '.')
  {
    TaggedIdentifiersDetermine(r, q);
    PlusFollowsItems(r);
    PlusFollowsItems(q);
    if r.variant != "" {
      JoinWithVariant(TaggedBuild(r), r.variant);
      JoinWithVariant(TaggedBuild(q), r.variant);
    } else {
      assert BuildItems(r) == TaggedBuild(r) && BuildItems(q) == TaggedBuild(q);
    }
  }

  lemma PlusFollowsItems(r: Release)
    ensures HasPlus(r) <==> TaggedBuild(r) != [] || r.variant != ""
  {
  }

  /**
    Exactly when two finalized releases of a variant print the same raw version, whatever their tags say: the same
    key parts, and the same build identifiers with the appended tag counted in.
   */
  lemma RawTextIff(r: Release, q: Release, rCreatedAt: nat, qCreatedAt: nat)
    requires IsFinal(r) && IsFinal(q) && ValidParts(r.parts) && ValidParts(q.parts) && r.variant == q.variant
    ensures RawText(r, rCreatedAt) == RawText(q, qCreatedAt)
       <==> r.parts.(build := "") == q.parts.(build := "") && TaggedIdentifiers(r) == TaggedIdentifiers(q)
  {
    if RawText(r, rCreatedAt) == RawText(q, qCreatedAt) {
      SameTextSameParts(r, q, rCreatedAt, qCreatedAt);
    }
    if r.parts.(build := "") == q.parts.(build := "") && TaggedIdentifiers(r) == TaggedIdentifiers(q) {
      RightHalfDetermined(r, q);
      RawTextOfFinal(r, rCreatedAt);
      RawTextOfFinal(q, qCreatedAt);
      assert LeftHalf(r.parts) == LeftHalf(q.parts);
    }
  }

  lemma SameTextSameParts(r: Release, q: Release, rCreatedAt: nat, qCreatedAt: nat)
    requires IsFinal(r) && IsFinal(q) && ValidParts(r.parts) && ValidParts(q.parts) && r.variant == q.variant
    requires RawText(r, rCreatedAt) == RawText(q, qCreatedAt)
    ensures r.parts.(build := "") == q.parts.(build := "") && TaggedIdentifiers(r) == TaggedIdentifiers(q)
  {
    Halves(r, rCreatedAt);
    Halves(q, qCreatedAt);
    LeftHalfDetermines(r.parts, q.parts);
    if HasPlus(r) {
      VariantComesOff(r, q);
    } else {
      assert TaggedBuild(r) == [] && TaggedBuild(q) == [];
    }
    TaggedBuildIdentifiers(r);
    TaggedBuildIdentifiers(q);
  }

  /** With honest tags such releases have the same revision too. */
  lemma RawTextInjective(r: Release, q: Release, rCreatedAt: nat, qCreatedAt: nat)
    requires IsFinal(r) && IsFinal(q) && ValidParts(r.parts) && ValidParts(q.parts)
    requires TagsAgree(r) && TagsAgree(q) && r.variant == q.variant
    ensures RawText(r, rCreatedAt) == RawText(q, qCreatedAt) ==> r.parts.(build := "") == q.parts.(build := "")
    ensures RawText(r, rCreatedAt) == RawText(q, qCreatedAt) ==> r.revision == q.revision
  {
    RawTextIff(r, q, rCreatedAt, qCreatedAt);
    if TaggedIdentifiers(r) == TaggedIdentifiers(q) {
      SameIdentifiersSameRevision(r, q);
    }
  }

  /** The same for what the field evaluates to. */
  lemma RawVersionInjective(r: Release, q: Release, rCreatedAt: nat, qCreatedAt: nat)
    requires IsFinal(r) && IsFinal(q) && ValidParts(r.parts) && ValidParts(q.parts)
    requires TagsAgree(r) && TagsAgree(q) && r.variant == q.variant
    ensures Sql.Eval(RawVersionField(), RowOf(r, rCreatedAt)) == Sql.Eval(RawVersionField(), RowOf(q, qCreatedAt))
        ==> r.parts.(build := "") == q.parts.(build := "") && r.revision == q.revision
  {
    RawVersionMeaning(r, rCreatedAt);
    RawVersionMeaning(q, qCreatedAt);
    RawTextInjective(r, q, rCreatedAt, qCreatedAt);
  }

  /** However requests interleave, a raw version names at most one finalized release of an application and variant. */
  lemma RawVersionIdentifiesRelease(s: State, es: seq<Event>, i: Id, j: Id, iCreatedAt: nat, jCreatedAt: nat)
    requires Initial(s) && TagsInv(s) && Legal(s, es) && BuildsFit(s, es)
    requires SameShelf(Run(s, es).committed, i, j)
    ensures var t := Run(s, es).committed;
            RawText(t[i], iCreatedAt) == RawText(t[j], jCreatedAt) ==> i == j
  {
    RunKeepsInv(s, es);
    RunKeepsTags(s, es);
    var t := Run(s, es).committed;
    RawTextInjective(t[i], t[j], iCreatedAt, jCreatedAt);
    assert RawText(t[i], iCreatedAt) == RawText(t[j], jCreatedAt) ==> KeyOf(t[i]) == KeyOf(t[j]);
  }

  /** Two finalized releases of one application and variant. */
  predicate SameShelf(t: Table, i: Id, j: Id) {
    i in t && j in t && IsFinal(t[i]) && IsFinal(t[j]) && t[i].app == t[j].app && t[i].variant == t[j].variant
  }
}
