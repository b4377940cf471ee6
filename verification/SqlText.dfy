/**
  Text expressions as the abstract SQL model builds them, with SQL's three-valued meaning, and the combinators of
  `abstract-sql-utils.ts`.
 */
module SqlText {
  import opened Basics
  import opened SemverText

  datatype Value = Text(text: string) | Number(number: nat)

  /** Texts and numbers, where `None` is NULL, and dates in microseconds since 1970; a field the row does not have is NULL. */
  datatype Row = Row(fields: map<string, Option<Value>>, dates: map<string, nat>)

  datatype Node =
    | Field(name: string)
    | EmbeddedText(text: string)
    | Cast(node: Node)
    | Floor(number: Numeric)
    | Case(when: Condition, result: Node, otherwise: Option<Node>)
    | Concatenate(nodes: seq<Node>)
    | ConcatenateWithSeparator(separator: char, nodes: seq<Node>)

  datatype Numeric =
    | TotalSeconds(field: string)
    | Multiply(left: Numeric, factor: nat)

  datatype Condition =
    | NotEquals(field: Node, text: string)
    | Exists(field: Node)
    | GreaterThan(name: string, number: nat)
    | Like(subject: Node, pattern: Node)
    | Not(condition: Condition)
    | And(left: Condition, right: Condition)
    | Or(conditions: seq<Condition>)

  // ---- meaning ----

  function TextOf(v: Value): string {
    match v
    case Text(t) => t
    case Number(n) => ToDecimal(n)
  }

  function Lookup(row: Row, name: string): Option<Value> {
    if name in row.fields then row.fields[name] else None
  }

  /** The value of a numeric expression, or NULL. */
  function Amount(n: Numeric, row: Row): (v: Option<real>)
    ensures v.Some? ==> v.value >= 0.0
  {
    match n
    case TotalSeconds(field) => if field in row.dates then Some(row.dates[field] as real / 1000000.0) else None
    case Multiply(left, factor) => var v := Amount(left, row); if v.Some? then Some(v.value * factor as real) else None
  }

  /** The text of an expression, or NULL. Casts to text change nothing here. */
  function Eval(n: Node, row: Row): Option<string>
    decreases n, 0
  {
    match n
    case Field(name) => var v := Lookup(row, name); if v.Some? then Some(TextOf(v.value)) else None
    case EmbeddedText(t) => Some(t)
    case Cast(inner) => Eval(inner, row)
    case Floor(number) => var v := Amount(number, row); if v.Some? then Some(ToDecimal(v.value.Floor)) else None
    case Case(when, result, otherwise) =>
      if Holds(when, row) == Some(true) then Eval(result, row)
      else if otherwise.Some? then Eval(otherwise.value, row)
      else None
    case Concatenate(nodes) => ConcatAll(nodes, row)
    case ConcatenateWithSeparator(sep, nodes) => Some(Join(NonNull(nodes, row), sep))
  }

  /** `a || b || ...` is NULL as soon as one operand is. */
  function ConcatAll(nodes: seq<Node>, row: Row): Option<string>
    decreases nodes, 1
  {
    if nodes == [] then Some("")
    else
      var first, rest := Eval(nodes[0], row), ConcatAll(nodes[1..], row);
      if first.Some? && rest.Some? then Some(first.value + rest.value) else None
  }

  /** `CONCAT_WS` skips NULLs. */
  function NonNull(nodes: seq<Node>, row: Row): seq<string>
    decreases nodes, 1
  {
    if nodes == [] then []
    else
      var first := Eval(nodes[0], row);
      (if first.Some? then [first.value] else []) + NonNull(nodes[1..], row)
  }

  function Holds(c: Condition, row: Row): Option<bool>
    decreases c, 0
  {
    match c
    case NotEquals(field, t) => var v := Eval(field, row); if v.Some? then Some(v.value != t) else None
    case Exists(field) => Some(Eval(field, row).Some?)
    case GreaterThan(name, n) =>
      var v := Lookup(row, name);
      if v.Some? && v.value.Number? then Some(v.value.number > n) else None
    case Like(subject, pattern) =>
      var s, p := Eval(subject, row), Eval(pattern, row);
      if s.Some? && p.Some? then Some(Matches(s.value, p.value)) else None
    case Not(inner) => var v := Holds(inner, row); if v.Some? then Some(!v.value) else None
    case And(left, right) =>
      var l, r := Holds(left, row), Holds(right, row);
      if l == Some(false) || r == Some(false) then Some(false)
      else if l == Some(true) && r == Some(true) then Some(true)
      else None
    case Or(conditions) => AnyHolds(conditions, row)
  }

  function AnyHolds(cs: seq<Condition>, row: Row): Option<bool>
    decreases cs, 1
  {
    if cs == [] then Some(false)
    else
      var first, rest := Holds(cs[0], row), AnyHolds(cs[1..], row);
      if first == Some(true) || rest == Some(true) then Some(true)
      else if first == Some(false) && rest == Some(false) then Some(false)
      else None
  }

  /** SQL LIKE: `%` is any text, `_` any character, and a backslash takes the next character literally. */
  function Matches(s: string, p: string): bool
    decreases |p|, |s|
  {
    if p == "" then s == ""
    else if p[0] == '%' then Matches(s, p[1..]) || (s != "" && Matches(s[1..], p))
    else if p[0] == '_' then s != "" && Matches(s[1..], p[1..])
    else if p[0] == '\\' && |p| > 1 then s != "" && s[0] == p[1] && Matches(s[1..], p[2..])
    else s != "" && s[0] == p[0] && Matches(s[1..], p[1..])
  }

  // ---- combinators ----

  /** What a template interpolates. */
  datatype Piece = Literal(text: string) | Expression(node: Node)

  datatype Part = Part(show: Condition, value: Node)

  /** How much white space a text begins with. */
  function Blanks(s: string): (n: nat)
    ensures n <= |s|
  {
    if s == "" || !IsWhitespace(s[0]) then 0 else 1 + Blanks(s[1..])
  }

  /** The one-line transformer: a stretch of white space with a line break in it disappears. */
  function OneLine(s: string): string
    decreases |s|
  {
    if s == "" then ""
    else
      var n := Blanks(s);
      if n == 0 then [s[0]] + OneLine(s[1..])
      else (if '\n' in s[..n] then "" else s[..n]) + OneLine(s[n..])
  }

  function OneLined(strings: seq<string>): seq<string> {
    seq(|strings|, i requires 0 <= i < |strings| => OneLine(strings[i]))
  }

  /** What is not white space. */
  function Printed(s: string): string {
    if s == "" then "" else (if IsWhitespace(s[0]) then "" else [s[0]]) + Printed(s[1..])
  }

  /** The nodes of a template: its strings and expressions in turn, on one line and without empty strings. */
  function TemplateNodes(strings: seq<string>, pieces: seq<Piece>): seq<Node>
    requires |strings| == |pieces| + 1
  {
    if pieces == [] then PieceNodes(Literal(strings[0]))
    else
      var n := |pieces| - 1;
      TemplateNodes(strings[..n + 1], pieces[..n]) + PieceNodes(pieces[n]) + PieceNodes(Literal(strings[n + 1]))
  }

  function PieceNodes(piece: Piece): seq<Node> {
    match piece
    case Literal(text) => if OneLine(text) == "" then [] else [EmbeddedText(OneLine(text))]
    case Expression(node) => [node]
  }

  function SqlConcat(strings: seq<string>, pieces: seq<Piece>): Node
    requires |strings| == |pieces| + 1
  {
    Concatenate(TemplateNodes(strings, pieces))
  }

  /** `addNode` with the one-line transformer: a text that leaves nothing is not pushed. */
  method AddNode(concats: seq<Node>, piece: Piece) returns (result: seq<Node>)
    ensures result == concats + PieceNodes(piece)
  {
    match piece {
      case Literal(text) =>
        var line := OneLine(text);
        result := if |line| > 0 then concats + [EmbeddedText(line)] else concats;
      case Expression(node) =>
        result := concats + [node];
    }
  }

  lemma NextNodes(strings: seq<string>, pieces: seq<Piece>, i: nat)
    requires |strings| == |pieces| + 1 && i < |pieces|
    ensures TemplateNodes(strings[..i + 2], pieces[..i + 1])
         == TemplateNodes(strings[..i + 1], pieces[..i]) + PieceNodes(pieces[i]) + PieceNodes(Literal(strings[i + 1]))
  {
    assert strings[..i + 2][..i + 1] == strings[..i + 1] && pieces[..i + 1][..i] == pieces[..i];
  }

  /** The loop of `sqlConcatFactory`: add the first string, then each expression and the string behind it. */
  method BuildSqlConcat(strings: seq<string>, pieces: seq<Piece>) returns (result: Node)
    requires |strings| == |pieces| + 1
    ensures result == SqlConcat(strings, pieces)
  {
    var concats := AddNode([], Literal(strings[0]));
    for i := 0 to |pieces|
      invariant concats == TemplateNodes(strings[..i + 1], pieces[..i])
    {
      NextNodes(strings, pieces, i);
      concats := AddNode(concats, pieces[i]);
      concats := AddNode(concats, Literal(strings[i + 1]));
    }
    assert strings[..|pieces| + 1] == strings && pieces[..|pieces|] == pieces;
    result := Concatenate(concats);
  }

  function PartNodes(parts: seq<Part>): seq<Node> {
    if parts == [] then []
    else [Cast(Case(parts[0].show, parts[0].value, None))] + PartNodes(parts[1..])
  }

  function Conditions(parts: seq<Part>): seq<Condition> {
    if parts == [] then [] else [parts[0].show] + Conditions(parts[1..])
  }

  /** `joinTextParts`: at least two parts, each shown under its condition. */
  function JoinTextParts(separator: char, parts: seq<Part>): Node
    requires |parts| >= 2
  {
    ConcatenateWithSeparator(separator, PartNodes(parts))
  }

  function JoinTextPartsAndPrefix(prefix: string, separator: char, parts: seq<Part>): Node
    requires |parts| >= 2
  {
    var joined := JoinTextParts(separator, parts);
    if prefix == "" then joined
    else Concatenate([Cast(Case(Or(Conditions(parts)), EmbeddedText(prefix), Some(EmbeddedText("")))), joined])
  }

  // ---- what the combinators mean ----

  /** The texts of the parts whose condition is true and whose value is not NULL. */
  function Shown(parts: seq<Part>, row: Row): seq<string> {
    if parts == [] then []
    else
      var v := Eval(parts[0].value, row);
      (if Holds(parts[0].show, row) == Some(true) && v.Some? then [v.value] else []) + Shown(parts[1..], row)
  }

  predicate SomeShown(parts: seq<Part>, row: Row) {
    exists p :: p in parts && Holds(p.show, row) == Some(true)
  }

  lemma {:induction false} PartsNonNull(parts: seq<Part>, row: Row)
    ensures NonNull(PartNodes(parts), row) == Shown(parts, row)
  {
    if parts != [] {
      PartsNonNull(parts[1..], row);
      var node := Cast(Case(parts[0].show, parts[0].value, None));
      assert PartNodes(parts)[0] == node && PartNodes(parts)[1..] == PartNodes(parts[1..]);
      assert Eval(node, row) == Eval(Case(parts[0].show, parts[0].value, None), row);
    }
  }

  lemma {:induction false} PrefixCondition(parts: seq<Part>, row: Row)
    ensures AnyHolds(Conditions(parts), row) == Some(true) <==> SomeShown(parts, row)
  {
    if parts != [] {
      PrefixCondition(parts[1..], row);
      assert Conditions(parts)[0] == parts[0].show && Conditions(parts)[1..] == Conditions(parts[1..]);
      if SomeShown(parts, row) && Holds(parts[0].show, row) != Some(true) {
        var p :| p in parts && Holds(p.show, row) == Some(true);
        assert p in parts[1..];
      }
      if SomeShown(parts[1..], row) {
        var p :| p in parts[1..] && Holds(p.show, row) == Some(true);
        assert p in parts;
      }
      assert parts[0] in parts;
    }
  }

  lemma ConcatOne(n: Node, row: Row)
    requires Eval(n, row).Some?
    ensures ConcatAll([n], row) == Eval(n, row)
  {
    assert [n][1..] == [];
    assert ConcatAll([], row) == Some("");
    assert Eval(n, row).value + "" == Eval(n, row).value;
  }

  lemma ConcatCons(n: Node, rest: seq<Node>, row: Row)
    ensures ConcatAll([n] + rest, row)
         == if Eval(n, row).Some? && ConcatAll(rest, row).Some? then Some(Eval(n, row).value + ConcatAll(rest, row).value) else None
  {
    assert ([n] + rest)[1..] == rest;
  }

  /** The shown parts joined, behind the prefix when a part is shown. */
  lemma JoinedPartsMeaning(prefix: string, separator: char, parts: seq<Part>, row: Row)
    requires |parts| >= 2
    ensures Eval(JoinTextParts(separator, parts), row) == Some(Join(Shown(parts, row), separator))
    ensures Eval(JoinTextPartsAndPrefix(prefix, separator, parts), row)
         == Some((if SomeShown(parts, row) then prefix else "") + Join(Shown(parts, row), separator))
  {
    PartsNonNull(parts, row);
    PrefixCondition(parts, row);
    var joined := JoinTextParts(separator, parts);
    if prefix != "" {
      var lead := Cast(Case(Or(Conditions(parts)), EmbeddedText(prefix), Some(EmbeddedText(""))));
      assert Eval(lead, row) == Eval(lead.node, row);
      assert Holds(lead.node.when, row) == AnyHolds(Conditions(parts), row);
      assert Eval(lead.node, row) == if SomeShown(parts, row) then Eval(EmbeddedText(prefix), row) else Eval(EmbeddedText(""), row);
      assert Eval(lead, row) == Some(if SomeShown(parts, row) then prefix else "");
      ConcatOne(joined, row);
      ConcatCons(lead, [joined], row);
      assert [lead, joined] == [lead] + [joined];
    } else {
      assert "" + Join(Shown(parts, row), separator) == Join(Shown(parts, row), separator);
    }
  }

  lemma {:induction false} PrintedConcat(a: string, b: string)
    ensures Printed(a + b) == Printed(a) + Printed(b)
  {
    if a == "" {
      assert a + b == b;
    } else {
      assert (a + b)[1..] == a[1..] + b;
      PrintedConcat(a[1..], b);
    }
  }

  lemma {:induction false} BlanksAreWhitespace(s: string)
    ensures forall i :: 0 <= i < Blanks(s) ==> IsWhitespace(s[i])
    ensures Printed(s[..Blanks(s)]) == ""
  {
    if s != "" && IsWhitespace(s[0]) {
      BlanksAreWhitespace(s[1..]);
      assert s[..Blanks(s)][1..] == s[1..][..Blanks(s[1..])];
    }
  }

  /** The first stretch of a text: its white space, or else its first character. */
  function Stretch(s: string): (n: nat)
    requires s != ""
    ensures 0 < n <= |s|
  {
    if Blanks(s) == 0 then 1 else Blanks(s)
  }

  lemma OneLineStep(s: string)
    requires s != ""
    ensures OneLine(s) == (if '\n' in s[..Stretch(s)] then "" else s[..Stretch(s)]) + OneLine(s[Stretch(s)..])
    ensures '\n' in s[..Stretch(s)] ==> Printed(s[..Stretch(s)]) == ""
  {
    BlanksAreWhitespace(s);
    assert s[..1] == [s[0]];
  }

  /** One line: no line break is left, and everything printed stays in order. */
  lemma {:induction false} OneLineMeaning(s: string)
    ensures '\n' !in OneLine(s) && Printed(OneLine(s)) == Printed(s)
    decreases |s|
  {
    if s != "" {
      var first, rest := s[..Stretch(s)], s[Stretch(s)..];
      OneLineStep(s);
      OneLineMeaning(rest);
      assert s == first + rest;
      PrintedConcat(first, rest);
      PrintedConcat(if '\n' in first then "" else first, OneLine(rest));
    }
  }

  /** No stretch of white space goes over the seam. */
  predicate SeamIsClean(a: string, b: string) {
    a == "" || b == "" || !IsWhitespace(a[|a| - 1]) || !IsWhitespace(b[0])
  }

  lemma {:induction false} BlanksConcat(a: string, b: string)
    requires a != "" && SeamIsClean(a, b)
    ensures Blanks(a + b) == Blanks(a)
  {
    assert (a + b)[1..] == a[1..] + b;
    if |a| == 1 {
      assert a[1..] + b == b;
    } else if IsWhitespace(a[0]) {
      BlanksConcat(a[1..], b);
    }
  }

  /** The first stretch of the left text is that of both. */
  lemma FirstStretch(a: string, b: string)
    requires a != "" && SeamIsClean(a, b)
    ensures Stretch(a + b) == Stretch(a) && SeamIsClean(a[Stretch(a)..], b)
    ensures (a + b)[..Stretch(a)] == a[..Stretch(a)] && (a + b)[Stretch(a)..] == a[Stretch(a)..] + b
  {
    BlanksConcat(a, b);
  }

  lemma {:induction false} OneLineConcat(a: string, b: string)
    requires SeamIsClean(a, b)
    ensures OneLine(a + b) == OneLine(a) + OneLine(b)
    decreases |a|
  {
    if a == "" {
      assert a + b == b;
    } else {
      var whole, first, rest := a + b, a[..Stretch(a)], a[Stretch(a)..];
      FirstStretch(a, b);
      OneLineStep(a);
      OneLineStep(whole);
      OneLineConcat(rest, b);
      Associative(if '\n' in first then "" else first, OneLine(rest), OneLine(b));
    }
  }

  lemma {:induction false} AllBlank(gap: string)
    requires forall i :: 0 <= i < |gap| ==> IsWhitespace(gap[i])
    ensures Blanks(gap) == |gap|
  {
    if gap != "" {
      AllBlank(gap[1..]);
    }
  }

  lemma OneLineOfGap(gap: string)
    requires forall i :: 0 <= i < |gap| ==> IsWhitespace(gap[i])
    ensures OneLine(gap) == if '\n' in gap then "" else gap
  {
    AllBlank(gap);
    if gap != "" {
      OneLineStep(gap);
      assert gap[..|gap|] == gap && gap[|gap|..] == "";
    }
  }

  /** A whole stretch of white space goes if it has a line break, and stays as it is otherwise. */
  lemma OneLineDropsBreaks(a: string, gap: string, b: string)
    requires forall i :: 0 <= i < |gap| ==> IsWhitespace(gap[i])
    requires a == "" || !IsWhitespace(a[|a| - 1])
    requires b == "" || !IsWhitespace(b[0])
    ensures OneLine(a + gap + b) == OneLine(a) + (if '\n' in gap then "" else gap) + OneLine(b)
  {
    var front := a + gap;
    OneLineConcat(a, gap);
    OneLineConcat(front, b);
    OneLineOfGap(gap);
  }

  /** A text without a line break is kept. */
  lemma {:induction false} OneLineKeepsLine(s: string)
    requires '\n' !in s
    ensures OneLine(s) == s
    decreases |s|
  {
    if s != "" {
      OneLineStep(s);
      OneLineKeepsLine(s[Stretch(s)..]);
      assert s == s[..Stretch(s)] + s[Stretch(s)..];
    }
  }

  lemma PlainIsOneLined(strings: seq<string>)
    requires forall i :: 0 <= i < |strings| ==> '\n' !in strings[i]
    ensures OneLined(strings) == strings
  {
    forall i | 0 <= i < |strings| ensures OneLine(strings[i]) == strings[i] {
      OneLineKeepsLine(strings[i]);
    }
  }

  function PieceText(piece: Piece, row: Row): Option<string> {
    match piece
    case Literal(text) => Some(OneLine(text))
    case Expression(node) => Eval(node, row)
  }

  lemma PieceMeaning(piece: Piece, row: Row)
    requires PieceText(piece, row).Some?
    ensures ConcatAll(PieceNodes(piece), row) == PieceText(piece, row)
  {
    if PieceNodes(piece) != [] {
      ConcatOne(PieceNodes(piece)[0], row);
    }
  }

  /** A template of non-NULL expressions means its strings, each on one line, and their texts in turn. */
  lemma {:induction false} TemplateMeaning(strings: seq<string>, pieces: seq<Piece>, texts: seq<string>, row: Row)
    requires |strings| == |pieces| + 1 && |texts| == |pieces|
    requires forall i :: 0 <= i < |pieces| ==> PieceText(pieces[i], row) == Some(texts[i])
    ensures Eval(SqlConcat(strings, pieces), row) == Some(Interleave(OneLined(strings), texts))
  {
    assert Eval(SqlConcat(strings, pieces), row) == ConcatAll(TemplateNodes(strings, pieces), row);
    if pieces == [] {
      PieceMeaning(Literal(strings[0]), row);
    } else {
      var n := |pieces| - 1;
      TemplateMeaning(strings[..n + 1], pieces[..n], texts[..n], row);
      assert OneLined(strings[..n + 1]) == OneLined(strings)[..n + 1];
      var before, own, after := TemplateNodes(strings[..n + 1], pieces[..n]), PieceNodes(pieces[n]), PieceNodes(Literal(strings[n + 1]));
      assert ConcatAll(before, row) == Eval(Concatenate(before), row);
      PieceMeaning(pieces[n], row);
      PieceMeaning(Literal(strings[n + 1]), row);
      ConcatAllConcat(before, own, row);
      ConcatAllConcat(before + own, after, row);
    }
  }

  function Interleave(strings: seq<string>, texts: seq<string>): string
    requires |strings| == |texts| + 1
  {
    if texts == [] then strings[0]
    else Interleave(strings[..|texts|], texts[..|texts| - 1]) + texts[|texts| - 1] + strings[|texts|]
  }

  lemma {:induction false} ConcatAllConcat(a: seq<Node>, b: seq<Node>, row: Row)
    requires ConcatAll(a, row).Some? && ConcatAll(b, row).Some?
    ensures ConcatAll(a + b, row) == Some(ConcatAll(a, row).value + ConcatAll(b, row).value)
  {
    if a == [] {
      assert a + b == b && ConcatAll(a, row) == Some("");
      assert "" + ConcatAll(b, row).value == ConcatAll(b, row).value;
    } else {
      assert (a + b)[1..] == a[1..] + b;
      ConcatAllConcat(a[1..], b, row);
      var first, middle, last := Eval(a[0], row).value, ConcatAll(a[1..], row).value, ConcatAll(b, row).value;
      assert first + (middle + last) == first + middle + last;
    }
  }

  // ---- LIKE as a search ----

  predicate IsLiteral(p: string) {
    forall i :: 0 <= i < |p| ==> p[i] != '%' && p[i] != '_' && p[i] != '\\'
  }

  predicate StartsWith(s: string, p: string) {
    |p| <= |s| && s[..|p|] == p
  }

  predicate Contains(s: string, p: string) {
    exists i :: 0 <= i <= |s| && StartsWith(s[i..], p)
  }

  lemma {:induction false} AnythingMatchesPercent(s: string)
    ensures Matches(s, "%")
  {
    if s != "" {
      AnythingMatchesPercent(s[1..]);
    } else {
      assert "%"[1..] == "";
    }
  }

  lemma {:induction false} LiteralThenPercent(s: string, p: string)
    requires IsLiteral(p)
    ensures Matches(s, p + "%") <==> StartsWith(s, p)
  {
    if p == "" {
      assert p + "%" == "%";
      AnythingMatchesPercent(s);
    } else {
      assert (p + "%")[1..] == p[1..] + "%" && (p + "%")[0] == p[0];
      if s != "" {
        LiteralThenPercent(s[1..], p[1..]);
        if StartsWith(s, p) {
          assert s[1..][..|p| - 1] == s[..|p|][1..];
        }
        if s[0] == p[0] && StartsWith(s[1..], p[1..]) {
          assert s[..|p|] == [s[0]] + s[1..][..|p| - 1];
          assert p == [p[0]] + p[1..];
        }
      }
    }
  }

  /** `s LIKE '%p%'` is a substring search when `p` has no wildcard. */
  lemma {:induction false} LikeIsContains(s: string, p: string)
    requires IsLiteral(p)
    ensures Matches(s, "%" + p + "%") <==> Contains(s, p)
  {
    var pattern := "%" + p + "%";
    assert pattern[1..] == p + "%";
    LiteralThenPercent(s, p);
    assert s[0..] == s;
    if s != "" {
      LikeIsContains(s[1..], p);
      if Contains(s, p) && !StartsWith(s, p) {
        var i :| 0 <= i <= |s| && StartsWith(s[i..], p);
        assert s[1..][i - 1..] == s[i..];
      }
      if Contains(s[1..], p) {
        var i :| 0 <= i <= |s| - 1 && StartsWith(s[1..][i..], p);
        assert s[i + 1..] == s[1..][i..];
      }
    } else if Contains(s, p) {
      var i :| 0 <= i <= |s| && StartsWith(s[i..], p);
      assert s[i..] == s;
    }
  }

  /** Looking for `.tag.` in `.list.` is looking for `tag` among the dot-separated items of the list. */
  lemma {:induction false} DottedSearch(list: string, tag: string)
    requires '.' !in tag
    ensures Contains("." + list + ".", "." + tag + ".") <==> tag in Split(list, '.')
    decreases |list|
  {
    var s, p := "." + list + ".", "." + tag + ".";
    var (head, tail) := Cut(list, '.');
    CutSplits(list);
    if tail.Some? {
      var rest := "." + tail.value + ".";
      assert s == "." + head + rest;
      DottedSearch(tail.value, tag);
      FirstItem(head, rest, tag);
      SearchPastItem(head, rest, tag);
    } else {
      assert s == "." + head + ".";
      FirstItem(head, ".", tag);
      SearchPastItem(head, ".", tag);
      if Contains(".", p) {
        var i :| 0 <= i <= 1 && StartsWith("."[i..], p);
        assert false;
      }
    }
  }

  lemma {:induction false} CutSplits(list: string)
    ensures var (head, tail) := Cut(list, '.');
            && '.' !in head
            && list == (if tail.Some? then head + "." + tail.value else head)
            && (tail.Some? ==> |tail.value| < |list|)
            && Split(list, '.') == (if tail.Some? then [head] + Split(tail.value, '.') else [head])
  {
    if list != "" {
      CutSplits(list[1..]);
      assert list == [list[0]] + list[1..];
    }
  }

  lemma FirstItem(head: string, rest: string, tag: string)
    requires '.' !in head && '.' !in tag && rest != "" && rest[0] == '.'
    ensures StartsWith("." + head + rest, "." + tag + ".") <==> head == tag
  {
    var s, p := "." + head + rest, "." + tag + ".";
    if head == tag {
      assert s[..|p|] == p;
    }
    if StartsWith(s, p) {
      assert forall k :: 0 <= k < |p| ==> s[k] == s[..|p|][k] == p[k];
      assert forall k :: 0 <= k < |head| ==> s[k + 1] == head[k] && head[k] != '.';
      assert forall k :: 0 <= k < |tag| ==> p[k + 1] == tag[k] && tag[k] != '.';
      assert s[|head| + 1] == '.' && p[|tag| + 1] == '.';
      assert !(|tag| < |head|) && !(|head| < |tag|);
      assert forall k :: 0 <= k < |tag| ==> head[k] == s[k + 1] && tag[k] == p[k + 1];
    }
  }

  /** A match that is not the first item lies in the rest: it starts with a dot, and the item has none. */
  lemma SearchPastItem(head: string, rest: string, tag: string)
    requires '.' !in head && '.' !in tag && rest != "" && rest[0] == '.'
    ensures var s, p := "." + head + rest, "." + tag + ".";
            Contains(s, p) <==> StartsWith(s, p) || Contains(rest, p)
  {
    var s, p := "." + head + rest, "." + tag + ".";
    var n := 1 + |head|;
    assert s[0..] == s && s[n..] == rest;
    if Contains(s, p) {
      var i :| 0 <= i <= |s| && StartsWith(s[i..], p);
      assert s[i] == s[i..][..|p|][0] == '.';
      assert forall k :: 0 <= k < |head| ==> s[k + 1] == head[k] && head[k] != '.';
      assert !(0 < i < n);
      if i >= n {
        assert rest[i - n..] == s[i..];
      }
    }
    if Contains(rest, p) {
      var i :| 0 <= i <= |rest| && StartsWith(rest[i..], p);
      assert s[n + i..] == rest[i..];
    }
  }
}
