/**
 The nesting scanner of backend/import_security.py, run before the JSON parser, against
 the structure of the value a text denotes (sections 2 to 7 of RFC 8259).
 */
module JsonNesting {
  import opened Wrappers

  const MAX_IMPORT_JSON_NESTING: nat := 64

  // ---- JSON texts -----------------------------------------------------------

  /** One character of a string literal, as written. */
  datatype Piece = Plain(c: char) | Escape(c: char) | Unicode(hex: string)

  /** A value together with one way of writing it: the pads are the insignificant white space. */
  datatype Value =
    | Literal(text: string)                       // a number, true, false or null
    | Text(pieces: seq<Piece>)
    | Array(pad: string, items: Items)
    | Object(pad: string, members: Members)

  /** `pad` stands in an empty array or object; the other pads surround the parts. */
  datatype Items = NoItem | Item(before: string, value: Value, after: string, rest: Items)
  datatype Members =
    NoMember | Member(before: string, key: seq<Piece>, middle: string, value: Value, after: string, rest: Members)

  predicate IsWhitespace(s: string) {
    forall i :: 0 <= i < |s| ==> s[i] in {' ', '\t', '\n', '\r'}
  }

  predicate IsLiteral(s: string) {
    forall i :: 0 <= i < |s| ==> 'a' <= s[i] <= 'z' || '0' <= s[i] <= '9' || s[i] in {'+', '-', '.', 'E'}
  }

  predicate LegalPiece(piece: Piece) {
    match piece
    case Plain(c) => ' ' <= c && c != '"' && c != '\\'
    case Escape(c) => c in {'"', '\\', '/', 'b', 'f', 'n', 'r', 't'}
    case Unicode(hex) => |hex| == 4 && IsLiteral(Lowered(hex))
  }

  /** Hexadecimal digits in lower case. */
  function Lowered(hex: string): (r: string)
    ensures |r| == |hex|
  {
    seq(|hex|, i requires 0 <= i < |hex| => if 'A' <= hex[i] <= 'F' then (hex[i] as int + 32) as char else hex[i])
  }

  predicate LegalPieces(pieces: seq<Piece>) {
    forall i :: 0 <= i < |pieces| ==> LegalPiece(pieces[i])
  }

  predicate Legal(v: Value) {
    match v
    case Literal(text) => IsLiteral(text)
    case Text(pieces) => LegalPieces(pieces)
    case Array(pad, items) => IsWhitespace(pad) && LegalItems(items)
    case Object(pad, members) => IsWhitespace(pad) && LegalMembers(members)
  }

  predicate LegalItems(items: Items) {
    items.NoItem? ||
    (IsWhitespace(items.before) && Legal(items.value) && IsWhitespace(items.after) && LegalItems(items.rest))
  }

  predicate LegalMembers(members: Members) {
    members.NoMember? ||
    (IsWhitespace(members.before) && LegalPieces(members.key) && IsWhitespace(members.middle)
     && Legal(members.value) && IsWhitespace(members.after) && LegalMembers(members.rest))
  }

  function RenderPiece(piece: Piece): string {
    match piece
    case Plain(c) => [c]
    case Escape(c) => ['\\', c]
    case Unicode(hex) => ['\\', 'u'] + hex
  }

  function RenderPieces(pieces: seq<Piece>): string {
    if pieces == [] then "" else RenderPiece(pieces[0]) + RenderPieces(pieces[1..])
  }

  /** Characters that need no escape stand for themselves. */
  lemma {:induction false} PlainTextStays(pieces: seq<Piece>, s: string)
    requires |pieces| == |s| && forall i :: 0 <= i < |s| ==> pieces[i] == Plain(s[i])
    ensures RenderPieces(pieces) == s
  {
    if s != "" {
      PlainTextStays(pieces[1..], s[1..]);
    }
  }

  function Render(v: Value): string {
    match v
    case Literal(text) => text
    case Text(pieces) => "\"" + RenderPieces(pieces) + "\""
    case Array(pad, items) => "[" + (if items.NoItem? then pad else RenderItems(items)) + "]"
    case Object(pad, members) => "{" + (if members.NoMember? then pad else RenderMembers(members)) + "}"
  }

  function RenderItems(items: Items): string {
    if items.NoItem? then ""
    else
      var rest := if items.rest.NoItem? then "" else "," + RenderItems(items.rest);
      items.before + Render(items.value) + items.after + rest
  }

  function RenderMembers(members: Members): string {
    if members.NoMember? then ""
    else members.before + ("\"" + RenderPieces(members.key) + "\"") + (members.middle + ":") + Render(members.value)
         + members.after + (if members.rest.NoMember? then "" else "," + RenderMembers(members.rest))
  }

  function Max(a: nat, b: nat): nat {
    if a < b then b else a
  }

  /** How deep arrays and objects nest. */
  function Depth(v: Value): nat {
    match v
    case Literal(_) => 0
    case Text(_) => 0
    case Array(_, items) => 1 + ItemsDepth(items)
    case Object(_, members) => 1 + MembersDepth(members)
  }

  function ItemsDepth(items: Items): nat {
    if items.NoItem? then 0 else Max(Depth(items.value), ItemsDepth(items.rest))
  }

  function MembersDepth(members: Members): nat {
    if members.NoMember? then 0 else Max(Depth(members.value), MembersDepth(members.rest))
  }

  // ---- The scanner ----------------------------------------------------------

  datatype State = State(depth: nat, inString: bool, escaped: bool)

  /** One character; None is the RecursionError. */
  function Step(s: State, c: char): Option<State> {
    if s.inString then
      if s.escaped then Some(s.(escaped := false))
      else if c == '\\' then Some(s.(escaped := true))
      else if c == '"' then Some(s.(inString := false))
      else Some(s)
    else if c == '"' then Some(s.(inString := true))
    else if c == '[' || c == '{' then
      if s.depth + 1 > MAX_IMPORT_JSON_NESTING then None else Some(s.(depth := s.depth + 1))
    else if (c == ']' || c == '}') && s.depth > 0 then Some(s.(depth := s.depth - 1))
    else Some(s)
  }

  function Scan(s: State, text: string): Option<State>
    decreases |text|
  {
    if text == "" then Some(s)
    else
      var next := Step(s, text[0]);
      if next.None? then None else Scan(next.value, text[1..])
  }

  /** _enforce_json_nesting_limit: whether it accepts. */
  method EnforceNestingLimit(document: string) returns (ok: bool)
    ensures ok <==> Scan(State(0, false, false), document).Some?
  {
    var depth, inString, escaped := 0, false, false;
    for n := 0 to |document|
      invariant depth >= 0
      invariant Scan(State(0, false, false), document) == Scan(State(depth, inString, escaped), document[n..])
    {
      var c := document[n];
      assert document[n..][0] == c && document[n..][1..] == document[n + 1..];
      if inString {
        if escaped {
          escaped := false;
        } else if c == '\\' {
          escaped := true;
        } else if c == '"' {
          inString := false;
        }
        continue;
      }
      if c == '"' {
        inString := true;
      } else if c == '[' || c == '{' {
        depth := depth + 1;
        if depth > MAX_IMPORT_JSON_NESTING {
          return false;
        }
      } else if (c == ']' || c == '}') && depth > 0 {
        depth := depth - 1;
      }
    }
    return true;
  }

  lemma {:induction false} ScanConcat(s: State, a: string, b: string)
    ensures Scan(s, a + b) == if Scan(s, a).None? then None else Scan(Scan(s, a).value, b)
    decreases |a|
  {
    if a == "" {
      assert a + b == b;
    } else {
      assert (a + b)[1..] == a[1..] + b;
      var next := Step(s, a[0]);
      if next.Some? {
        ScanConcat(next.value, a[1..], b);
      }
    }
  }

  /** Characters that mean nothing outside strings: white space, commas, colons, literals. */
  predicate Neutral(s: string) {
    forall i :: 0 <= i < |s| ==> s[i] !in {'"', '[', ']', '{', '}'}
  }

  lemma {:induction false} ScanNeutral(depth: nat, text: string)
    requires Neutral(text)
    ensures Scan(State(depth, false, false), text) == Some(State(depth, false, false))
    decreases |text|
  {
    if text != "" {
      ScanNeutral(depth, text[1..]);
    }
  }

  /** The text after an opening quote, up to and including the closing one. */
  lemma {:induction false} ScanString(depth: nat, pieces: seq<Piece>)
    requires LegalPieces(pieces)
    ensures Scan(State(depth, true, false), RenderPieces(pieces)) == Some(State(depth, true, false))
    decreases |pieces|
  {
    if pieces != [] {
      var s := State(depth, true, false);
      ScanConcat(s, RenderPiece(pieces[0]), RenderPieces(pieces[1..]));
      ScanString(depth, pieces[1..]);
      ScanPiece(depth, pieces[0]);
    }
  }

  lemma ScanPiece(depth: nat, piece: Piece)
    requires LegalPiece(piece)
    ensures Scan(State(depth, true, false), RenderPiece(piece)) == Some(State(depth, true, false))
  {
    var s := State(depth, true, false);
    match piece
    case Plain(c) =>
      assert Scan(s, [c]) == Scan(s, "");
    case Escape(c) =>
      assert ['\\', c][1..] == [c];
      assert Scan(s.(escaped := true), [c]) == Scan(s, "");
    case Unicode(hex) =>
      var text := RenderPiece(piece);
      assert text == ['\\', 'u'] + hex;
      assert text[1..] == ['u'] + hex && text[1..][1..] == hex;
      forall i | 0 <= i < |hex| ensures hex[i] != '"' && hex[i] != '\\' {
        assert Lowered(hex)[i] != '"' && Lowered(hex)[i] != '\\';
      }
      ScanInside(depth, hex);
  }

  lemma {:induction false} ScanInside(depth: nat, text: string)
    requires forall i :: 0 <= i < |text| ==> text[i] != '"' && text[i] != '\\'
    ensures Scan(State(depth, true, false), text) == Some(State(depth, true, false))
    decreases |text|
  {
    if text != "" {
      ScanInside(depth, text[1..]);
    }
  }

  lemma ScanQuoted(depth: nat, pieces: seq<Piece>)
    requires LegalPieces(pieces)
    ensures Scan(State(depth, false, false), "\"" + RenderPieces(pieces) + "\"") == Some(State(depth, false, false))
  {
    var inner := RenderPieces(pieces);
    var text := "\"" + inner + "\"";
    assert text[1..] == inner + "\"";
    ScanConcat(State(depth, true, false), inner, "\"");
    ScanString(depth, pieces);
  }

  // ---- Structure ------------------------------------------------------------

  /** What the scanner does over a part of the text that nests `deep` levels. */
  predicate Behaves(depth: nat, text: string, deep: nat) {
    Scan(State(depth, false, false), text) ==
      if depth + deep <= MAX_IMPORT_JSON_NESTING then Some(State(depth, false, false)) else None
  }

  lemma BehavesConcat(depth: nat, a: string, x: nat, b: string, y: nat)
    requires depth <= MAX_IMPORT_JSON_NESTING && Behaves(depth, a, x) && Behaves(depth, b, y)
    ensures Behaves(depth, a + b, Max(x, y))
  {
    ScanConcat(State(depth, false, false), a, b);
  }

  lemma BehavesBracketed(depth: nat, open: char, text: string, deep: nat, close: char)
    requires depth <= MAX_IMPORT_JSON_NESTING && open in {'[', '{'} && close in {']', '}'}
    requires depth + 1 <= MAX_IMPORT_JSON_NESTING ==> Behaves(depth + 1, text, deep)
    ensures Behaves(depth, [open] + text + [close], 1 + deep)
  {
    var whole := [open] + text + [close];
    assert whole[1..] == text + [close];
    if depth + 1 <= MAX_IMPORT_JSON_NESTING {
      ScanConcat(State(depth + 1, false, false), text, [close]);
    }
  }

  /** The scanner rejects a legal text exactly if the value nests deeper than the limit, and
      otherwise ends each value in the state in which it began it. */
  lemma {:induction false} ScanFollowsStructure(depth: nat, v: Value)
    requires depth <= MAX_IMPORT_JSON_NESTING && Legal(v)
    ensures Behaves(depth, Render(v), Depth(v))
    decreases v, 0
  {
    match v
    case Literal(text) =>
      ScanNeutral(depth, text);
    case Text(pieces) =>
      ScanQuoted(depth, pieces);
    case Array(pad, items) =>
      if depth + 1 <= MAX_IMPORT_JSON_NESTING {
        if items.NoItem? { ScanNeutral(depth + 1, pad); } else { ScanItems(depth + 1, items); }
      }
      BehavesBracketed(depth, '[', if items.NoItem? then pad else RenderItems(items), ItemsDepth(items), ']');
    case Object(pad, members) =>
      if depth + 1 <= MAX_IMPORT_JSON_NESTING {
        if members.NoMember? { ScanNeutral(depth + 1, pad); } else { ScanMembers(depth + 1, members); }
      }
      var inside := if members.NoMember? then pad else RenderMembers(members);
      BehavesBracketed(depth, '{', inside, MembersDepth(members), '}');
  }

  lemma {:induction false} ScanItems(depth: nat, items: Items)
    requires depth <= MAX_IMPORT_JSON_NESTING && LegalItems(items)
    ensures Behaves(depth, RenderItems(items), ItemsDepth(items))
    decreases items, 1
  {
    if items.Item? {
      var rest := if items.rest.NoItem? then "" else "," + RenderItems(items.rest);
      ScanNeutral(depth, items.before);
      ScanFollowsStructure(depth, items.value);
      ScanNeutral(depth, items.after);
      ScanNeutral(depth, ",");
      ScanItems(depth, items.rest);
      if items.rest.Item? {
        BehavesConcat(depth, ",", 0, RenderItems(items.rest), ItemsDepth(items.rest));
      }
      BehavesConcat(depth, items.before, 0, Render(items.value), Depth(items.value));
      BehavesConcat(depth, items.before + Render(items.value), Depth(items.value), items.after, 0);
      var first := items.before + Render(items.value) + items.after;
      BehavesConcat(depth, first, Depth(items.value), rest, ItemsDepth(items.rest));
    }
  }

  lemma {:induction false} ScanMembers(depth: nat, members: Members)
    requires depth <= MAX_IMPORT_JSON_NESTING && LegalMembers(members)
    ensures Behaves(depth, RenderMembers(members), MembersDepth(members))
    decreases members, 1
  {
    if members.Member? {
      var key, value := "\"" + RenderPieces(members.key) + "\"", Render(members.value);
      var rest := if members.rest.NoMember? then "" else "," + RenderMembers(members.rest);
      ScanNeutral(depth, members.before);
      ScanQuoted(depth, members.key);
      ScanNeutral(depth, members.middle + ":");
      ScanFollowsStructure(depth, members.value);
      ScanNeutral(depth, members.after);
      ScanNeutral(depth, ",");
      ScanMembers(depth, members.rest);
      if members.rest.Member? {
        BehavesConcat(depth, ",", 0, RenderMembers(members.rest), MembersDepth(members.rest));
      }
      BehavesConcat(depth, members.before, 0, key, 0);
      BehavesConcat(depth, members.before + key, 0, members.middle + ":", 0);
      BehavesConcat(depth, members.before + key + (members.middle + ":"), 0, value, Depth(members.value));
      BehavesConcat(
        depth, members.before + key + (members.middle + ":") + value, Depth(members.value), members.after, 0);
      BehavesConcat(depth, members.before + key + (members.middle + ":") + value + members.after, Depth(members.value),
                    rest, MembersDepth(members.rest));
    }
  }

  /** A whole document: a value between insignificant white space. */
  lemma DocumentRejectedIffTooDeep(before: string, v: Value, after: string)
    requires IsWhitespace(before) && IsWhitespace(after) && Legal(v)
    ensures Scan(State(0, false, false), before + Render(v) + after) ==
      if Depth(v) <= MAX_IMPORT_JSON_NESTING then Some(State(0, false, false)) else None
  {
    ScanNeutral(0, before);
    ScanNeutral(0, after);
    ScanFollowsStructure(0, v);
    BehavesConcat(0, before, 0, Render(v), Depth(v));
    BehavesConcat(0, before + Render(v), Depth(v), after, 0);
  }
}
