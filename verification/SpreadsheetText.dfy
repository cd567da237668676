/**
 The text helpers of excel_tools.py: slug and combine_unique_notes.
 */
module SpreadsheetText {
  import opened Text

  // ---- slug -----------------------------------------------------------------

  /** str.isalnum per character: white space, ':' and '-' are not alphanumeric, small letters are. */
  type Alphanumeric = p: char -> bool |
      !p(':') && !p('-') && (forall c :: 'a' <= c <= 'z' ==> p(c)) witness c => 'a' <= c <= 'z'

  /** Every run of other characters becomes one dash. */
  function Dashed(alnum: Alphanumeric, s: string, lastDash: bool): string {
    if s == "" then ""
    else if alnum(s[0]) then [s[0]] + Dashed(alnum, s[1..], false)
    else if lastDash then Dashed(alnum, s[1..], true)
    else "-" + Dashed(alnum, s[1..], true)
  }

  function TrimLeft(s: string): string {
    if s != "" && s[0] == '-' then TrimLeft(s[1..]) else s
  }

  function TrimRight(s: string): string {
    if s != "" && s[|s| - 1] == '-' then TrimRight(s[..|s| - 1]) else s
  }

  /** What slug returns for a text already in lower case. */
  function Slug(alnum: Alphanumeric, lowered: string): string {
    var trimmed := TrimRight(TrimLeft(Dashed(alnum, lowered, false)));
    if trimmed == "" then "unknown" else trimmed
  }

  /** Alphanumeric words joined by single dashes. */
  predicate IsSlug(alnum: Alphanumeric, s: string) {
    && s != "" && alnum(s[0]) && alnum(s[|s| - 1])
    && (forall i :: 0 <= i < |s| ==> alnum(s[i]) || s[i] == '-')
    && (forall i :: 0 <= i < |s| - 1 ==> s[i] == '-' ==> s[i + 1] != '-')
  }

  /** slug, after lower(). */
  method ComputeSlug(alnum: Alphanumeric, lowered: string) returns (slug: string)
    ensures slug == Slug(alnum, lowered)
  {
    var cleaned := ReplaceRuns(alnum, lowered);
    slug := TrimRight(TrimLeft(cleaned));
    if slug == "" {
      slug := "unknown";
    }
  }

  method ReplaceRuns(alnum: Alphanumeric, lowered: string) returns (cleaned: string)
    ensures cleaned == Dashed(alnum, lowered, false)
  {
    var lastDash := false;
    cleaned := "";
    for n := 0 to |lowered|
      invariant Dashed(alnum, lowered, false) == cleaned + Dashed(alnum, lowered[n..], lastDash)
    {
      DashedStep(alnum, cleaned, lowered[n..], lastDash);
      if alnum(lowered[n]) {
        cleaned, lastDash := cleaned + [lowered[n]], false;
      } else if !lastDash {
        cleaned, lastDash := cleaned + "-", true;
      }
    }
  }

  lemma DashedStep(alnum: Alphanumeric, done: string, s: string, lastDash: bool)
    requires s != ""
    ensures done + Dashed(alnum, s, lastDash) ==
      if alnum(s[0]) then (done + [s[0]]) + Dashed(alnum, s[1..], false)
      else if lastDash then done + Dashed(alnum, s[1..], true)
      else (done + "-") + Dashed(alnum, s[1..], true)
  {
  }

  predicate NoDoubleDash(alnum: Alphanumeric, s: string) {
    && (forall i :: 0 <= i < |s| ==> alnum(s[i]) || s[i] == '-')
    && (forall i :: 0 <= i < |s| - 1 ==> s[i] == '-' ==> s[i + 1] != '-')
  }

  lemma {:induction false} DashedIsClean(alnum: Alphanumeric, s: string, lastDash: bool)
    ensures NoDoubleDash(alnum, Dashed(alnum, s, lastDash))
    ensures lastDash && Dashed(alnum, s, lastDash) != "" ==> Dashed(alnum, s, lastDash)[0] != '-'
  {
    if s != "" {
      DashedIsClean(alnum, s[1..], !alnum(s[0]));
    }
  }

  lemma {:induction false} TrimLeftIsClean(alnum: Alphanumeric, s: string)
    requires NoDoubleDash(alnum, s)
    ensures NoDoubleDash(alnum, TrimLeft(s)) && (TrimLeft(s) != "" ==> TrimLeft(s)[0] != '-')
  {
    if s != "" && s[0] == '-' {
      TrimLeftIsClean(alnum, s[1..]);
    }
  }

  lemma {:induction false} TrimRightIsClean(alnum: Alphanumeric, s: string)
    requires NoDoubleDash(alnum, s) && (s != "" ==> s[0] != '-')
    ensures var t := TrimRight(s);
      NoDoubleDash(alnum, t) && (t != "" ==> t[0] != '-' && t[|t| - 1] != '-')
  {
    if s != "" && s[|s| - 1] == '-' {
      TrimRightIsClean(alnum, s[..|s| - 1]);
    }
  }

  lemma UnknownIsASlug(alnum: Alphanumeric)
    ensures IsSlug(alnum, "unknown")
  {
    assert forall i :: 0 <= i < |"unknown"| ==> alnum("unknown"[i]) && "unknown"[i] != '-';
  }

  lemma SlugIsASlug(alnum: Alphanumeric, lowered: string)
    ensures IsSlug(alnum, Slug(alnum, lowered))
  {
    var dashed := Dashed(alnum, lowered, false);
    DashedIsClean(alnum, lowered, false);
    TrimLeftIsClean(alnum, dashed);
    TrimRightIsClean(alnum, TrimLeft(dashed));
    if TrimRight(TrimLeft(dashed)) == "" {
      UnknownIsASlug(alnum);
    }
  }

  /** A text that is a slug already is its own slug. */
  lemma SlugIsStable(alnum: Alphanumeric, s: string)
    requires IsSlug(alnum, s)
    ensures Slug(alnum, s) == s
  {
    DashedIsStable(alnum, s, false);
  }

  lemma {:induction false} DashedIsStable(alnum: Alphanumeric, s: string, lastDash: bool)
    requires NoDoubleDash(alnum, s) && (lastDash && s != "" ==> s[0] != '-')
    ensures Dashed(alnum, s, lastDash) == s
  {
    if s != "" {
      DashedIsStable(alnum, s[1..], !alnum(s[0]));
    }
  }

  // What a slug is made of: the words of a text, in order, with one dash between two of them.

  function Trimmed(alnum: Alphanumeric, s: string): string {
    TrimRight(TrimLeft(Dashed(alnum, s, false)))
  }

  /** Two slugs behind each other, or the one that is not empty. */
  function Linked(a: string, b: string): string {
    if a == "" then b else if b == "" then a else a + "-" + b
  }

  lemma TrimRightKeepsFront(c: char, t: string)
    ensures TrimRight([c] + t) == if c == '-' && TrimRight(t) == "" then "" else [c] + TrimRight(t)
    decreases |t|
  {
    if t != "" && t[|t| - 1] == '-' {
      TrimRightKeepsFront(c, t[..|t| - 1]);
      assert ([c] + t)[..|t|] == [c] + t[..|t| - 1];
    } else if t == "" {
      assert TrimRight("") == "" && [c][..0] == "";
      assert c == '-' ==> TrimRight([c]) == TrimRight([c][..0]);
    }
  }

  lemma TrimmedSkips(alnum: Alphanumeric, s: string)
    requires s != "" && !alnum(s[0])
    ensures Trimmed(alnum, s) == TrimRight(Dashed(alnum, s[1..], true)) == Trimmed(alnum, s[1..])
  {
    var rest := Dashed(alnum, s[1..], true);
    DashedIsClean(alnum, s[1..], true);
    assert Dashed(alnum, s, false) == "-" + rest && ("-" + rest)[1..] == rest;
    assert TrimLeft(rest) == rest;
    assert TrimLeft(Dashed(alnum, s[1..], false)) == rest by {
      DashedAfterDash(alnum, s[1..]);
    }
  }

  lemma DashedAfterDash(alnum: Alphanumeric, s: string)
    ensures TrimLeft(Dashed(alnum, s, false)) == Dashed(alnum, s, true)
  {
    DashedIsClean(alnum, s, true);
    if s != "" && !alnum(s[0]) {
      assert Dashed(alnum, s, false) == "-" + Dashed(alnum, s[1..], true);
      assert ("-" + Dashed(alnum, s[1..], true))[1..] == Dashed(alnum, s[1..], true);
      DashedIsClean(alnum, s[1..], true);
    }
  }

  /** A character in front of a slug, in its first word or as a word of its own. */
  function Taken(c: char, inWord: bool, rest: string): string {
    if inWord then [c] + rest else Linked([c], rest)
  }

  lemma TakenLinks(c: char, inWord: bool, rest: string, y: string)
    requires inWord ==> rest != ""
    ensures Taken(c, inWord, Linked(rest, y)) == Linked(Taken(c, inWord, rest), y)
  {
  }

  lemma TrimmedTakes(alnum: Alphanumeric, s: string)
    requires s != "" && alnum(s[0])
    ensures Trimmed(alnum, s) == Taken(s[0], |s| > 1 && alnum(s[1]), Trimmed(alnum, s[1..]))
    ensures Trimmed(alnum, s) != ""
  {
    var rest := Dashed(alnum, s[1..], false);
    assert TrimLeft([s[0]] + rest) == [s[0]] + rest;
    TrimRightKeepsFront(s[0], rest);
    if |s| > 1 && !alnum(s[1]) {
      var t := s[1..];
      assert rest == "-" + Dashed(alnum, t[1..], true);
      TrimRightKeepsFront('-', Dashed(alnum, t[1..], true));
      TrimmedSkips(alnum, t);
    }
  }

  lemma TrimmedTakesPart(alnum: Alphanumeric, a: string, s: string, y: string)
    requires a != "" && alnum(a[0]) && |s| > |a| && s[0] == a[0]
    requires if |a| > 1 then s[1] == a[1] else !alnum(s[1])
    requires Trimmed(alnum, s[1..]) == Linked(Trimmed(alnum, a[1..]), y)
    ensures Trimmed(alnum, s) == Linked(Trimmed(alnum, a), y)
  {
    var inWord := |a| > 1 && alnum(a[1]);
    if inWord {
      TrimmedTakes(alnum, a[1..]);
    }
    TakenLinks(a[0], inWord, Trimmed(alnum, a[1..]), y);
    TrimmedTakes(alnum, a);
    TrimmedTakes(alnum, s);
  }

  lemma {:induction false} TrimmedOfParts(alnum: Alphanumeric, a: string, c: char, b: string)
    requires !alnum(c)
    ensures Trimmed(alnum, a + [c] + b) == Linked(Trimmed(alnum, a), Trimmed(alnum, b))
    decreases |a|
  {
    var s := a + [c] + b;
    if a == "" {
      assert s[1..] == b;
      TrimmedSkips(alnum, s);
    } else {
      TrimmedOfParts(alnum, a[1..], c, b);
      assert s[1..] == a[1..] + [c] + b;
      if alnum(a[0]) {
        TrimmedTakesPart(alnum, a, s, Trimmed(alnum, b));
      } else {
        TrimmedSkips(alnum, a);
        TrimmedSkips(alnum, s);
      }
    }
  }

  lemma {:induction false} BlankSlug(alnum: Alphanumeric, s: string)
    ensures Trimmed(alnum, s) == "" <==> forall i :: 0 <= i < |s| ==> !alnum(s[i])
  {
    if s != "" {
      BlankSlug(alnum, s[1..]);
      if alnum(s[0]) {
        TrimmedTakes(alnum, s);
      } else {
        TrimmedSkips(alnum, s);
      }
    }
  }

  /** Any other character ends a word; words are linked by one dash, and nothing else is added.
      Only a text without words has the slug "unknown" for want of one. */
  lemma SlugOfParts(alnum: Alphanumeric, a: string, c: char, b: string)
    requires !alnum(c)
    ensures var wordsIn := (s: string) => exists i :: 0 <= i < |s| && alnum(s[i]);
      Slug(alnum, a + [c] + b) ==
        if wordsIn(a) && wordsIn(b) then Slug(alnum, a) + "-" + Slug(alnum, b)
        else if wordsIn(a) then Slug(alnum, a) else Slug(alnum, b)
    ensures (forall i :: 0 <= i < |a| ==> !alnum(a[i])) ==> Slug(alnum, a) == "unknown"
  {
    TrimmedOfParts(alnum, a, c, b);
    BlankSlug(alnum, a);
    BlankSlug(alnum, b);
  }

  // ---- Notes ----------------------------------------------------------------

  /** s.split(";") */
  function SplitNotes(s: string): (parts: seq<string>)
    ensures parts != []
    decreases |s|
  {
    if s == "" then [""]
    else
      var rest := SplitNotes(s[1..]);
      if s[0] == ';' then [""] + rest else [[s[0]] + rest[0]] + rest[1..]
  }

  /** Appends the stripped, non-empty parts that are not there yet. */
  function AddNotes(notes: seq<string>, parts: seq<string>): seq<string>
    decreases |parts|
  {
    if parts == [] then notes
    else
      var cleaned := Strip(parts[0]);
      AddNotes(if cleaned != "" && cleaned !in notes then notes + [cleaned] else notes, parts[1..])
  }

  /** The notes a cell stands for, each once, in order. */
  function NotesOf(cell: string): seq<string> {
    AddNotes([], SplitNotes(cell))
  }

  function JoinNotes(notes: seq<string>): string {
    if notes == [] then "" else if |notes| == 1 then notes[0] else notes[0] + "; " + JoinNotes(notes[1..])
  }

  /** combine_unique_notes on two cells. */
  method CombineUniqueNotes(left: string, right: string) returns (combined: string)
    ensures combined == Combined(left, right)
  {
    var notes: seq<string> := [];
    var values := [left, right];
    for v := 0 to 2
      invariant notes ==
        if v == 0 then [] else if v == 1 then NotesOf(left) else AddNotes(NotesOf(left), SplitNotes(right))
    {
      var parts := SplitNotes(values[v]);
      ghost var before := notes;
      for n := 0 to |parts|
        invariant AddNotes(notes, parts[n..]) == AddNotes(before, parts)
      {
        assert parts[n..][0] == parts[n] && parts[n..][1..] == parts[n + 1..];
        var cleaned := Strip(parts[n]);
        if cleaned != "" && cleaned !in notes {
          notes := notes + [cleaned];
        }
      }
    }
    combined := JoinNotes(notes);
  }

  function Combined(left: string, right: string): string {
    JoinNotes(AddNotes(NotesOf(left), SplitNotes(right)))
  }

  /** A note as it stands in a list: not blank, no separator, no white space at its ends. */
  predicate IsNote(note: string) {
    note != "" && ';' !in note && !IsSpace(note[0]) && !IsSpace(note[|note| - 1])
  }

  predicate AreNotes(notes: seq<string>) {
    && (forall i :: 0 <= i < |notes| ==> IsNote(notes[i]))
    && (forall i, j :: 0 <= i < j < |notes| ==> notes[i] != notes[j])
  }

  lemma {:induction false} SplitHasNoSeparator(s: string)
    ensures forall i :: 0 <= i < |SplitNotes(s)| ==> ';' !in SplitNotes(s)[i]
    decreases |s|
  {
    if s != "" {
      SplitHasNoSeparator(s[1..]);
    }
  }

  lemma {:induction false} StripLeftKeeps(s: string)
    ensures forall c :: c in StripLeft(s) ==> c in s
  {
    if s != "" && IsSpace(s[0]) {
      StripLeftKeeps(s[1..]);
    }
  }

  lemma {:induction false} StripRightKeeps(s: string)
    ensures forall c :: c in StripRight(s) ==> c in s
    ensures StripRight(s) != "" ==> s != "" && StripRight(s)[0] == s[0] && !IsSpace(StripRight(s)[|StripRight(s)| - 1])
    decreases |s|
  {
    if s != "" && IsSpace(s[|s| - 1]) {
      StripRightKeeps(s[..|s| - 1]);
    }
  }

  lemma StripMakesANote(s: string)
    requires ';' !in s && Strip(s) != ""
    ensures IsNote(Strip(s))
  {
    StripLeftKeeps(s);
    StripRightKeeps(StripLeft(s));
  }

  lemma {:induction false} AddNotesAddsNotes(notes: seq<string>, parts: seq<string>)
    requires AreNotes(notes) && forall i :: 0 <= i < |parts| ==> ';' !in parts[i]
    ensures AreNotes(AddNotes(notes, parts))
    ensures forall note :: note in AddNotes(notes, parts) <==>
      note in notes || (note != "" && exists i :: 0 <= i < |parts| && Strip(parts[i]) == note)
    decreases |parts|
  {
    if parts != [] {
      var cleaned := Strip(parts[0]);
      var next := if cleaned != "" && cleaned !in notes then notes + [cleaned] else notes;
      if cleaned != "" {
        StripMakesANote(parts[0]);
      }
      AddNotesAddsNotes(next, parts[1..]);
      forall note: string | note != "" && exists i :: 0 <= i < |parts| && Strip(parts[i]) == note
        ensures note in AddNotes(notes, parts)
      {
        var i :| 0 <= i < |parts| && Strip(parts[i]) == note;
        if i > 0 {
          assert parts[1..][i - 1] == parts[i];
        }
      }
    }
  }

  lemma {:induction false} SplitOfNote(note: string, rest: string)
    requires ';' !in note
    ensures SplitNotes(note + ";" + rest) == [note] + SplitNotes(rest)
    ensures SplitNotes(note) == [note]
    decreases |note|
  {
    if note == "" {
      assert (";" + rest)[1..] == rest;
      assert "" + ";" + rest == ";" + rest;
    } else {
      assert (note + ";" + rest)[1..] == note[1..] + ";" + rest;
      SplitOfNote(note[1..], rest);
      assert note == [note[0]] + note[1..];
    }
  }

  lemma StripOfNote(note: string)
    requires IsNote(note)
    ensures Strip(note) == note && Strip(" " + note) == note
  {
    assert (" " + note)[1..] == note;
  }

  /** One more note at the front of a cell is one more note in the list. */
  lemma AddNote(before: seq<string>, first: string, lead: string, rest: string, cell: string)
    requires IsNote(first) && first !in before && lead in {"", " "}
    requires cell == (lead + first) + ";" + rest
    ensures AddNotes(before, SplitNotes(cell)) == AddNotes(before + [first], SplitNotes(rest))
  {
    StripOfNote(first);
    assert "" + first == first;
    SplitOfNote(lead + first, rest);
    var parts := [lead + first] + SplitNotes(rest);
    assert parts[1..] == SplitNotes(rest);
  }

  lemma AddLastNote(before: seq<string>, first: string, lead: string)
    requires IsNote(first) && first !in before && lead in {"", " "}
    ensures AddNotes(before, SplitNotes(lead + first)) == before + [first]
  {
    StripOfNote(first);
    assert "" + first == first;
    SplitOfNote(lead + first, "");
    assert AddNotes(before, [lead + first]) == AddNotes(before + [first], []);
  }

  /** Joining and splitting again gives the same notes: the cell loses nothing. */
  lemma {:induction false} NotesRoundTrip(before: seq<string>, notes: seq<string>, lead: string)
    requires AreNotes(notes) && notes != [] && lead in {"", " "}
    requires forall i :: 0 <= i < |notes| ==> notes[i] !in before
    ensures AddNotes(before, SplitNotes(lead + JoinNotes(notes))) == before + notes
    decreases |notes|
  {
    var first, rest := notes[0], notes[1..];
    if rest == [] {
      AddLastNote(before, first, lead);
      assert notes == [first];
    } else {
      RestIsNew(before, notes);
      NotesRoundTrip(before + [first], rest, " ");
      JoinedNotes(lead, notes);
      AddNote(before, first, lead, " " + JoinNotes(rest), lead + JoinNotes(notes));
      assert before + notes == (before + [first]) + rest;
    }
  }

  lemma RestIsNew(before: seq<string>, notes: seq<string>)
    requires AreNotes(notes) && notes != [] && forall i :: 0 <= i < |notes| ==> notes[i] !in before
    ensures AreNotes(notes[1..]) && forall i :: 0 <= i < |notes[1..]| ==> notes[1..][i] !in before + [notes[0]]
  {
  }

  lemma JoinedNotes(lead: string, notes: seq<string>)
    requires |notes| > 1
    ensures lead + JoinNotes(notes) == (lead + notes[0]) + ";" + (" " + JoinNotes(notes[1..]))
  {
  }

  /** The combined cell stands for the duplicate-free union of both cells' notes. */
  lemma CombinedIsTheUnion(left: string, right: string)
    ensures AreNotes(NotesOf(Combined(left, right)))
    ensures forall note :: note in NotesOf(Combined(left, right)) <==> note in NotesOf(left) || note in NotesOf(right)
    ensures NotesOf(left) <= NotesOf(Combined(left, right))
  {
    SplitHasNoSeparator(left);
    SplitHasNoSeparator(right);
    var ours := NotesOf(left);
    AddNotesAddsNotes([], SplitNotes(left));
    AddNotesAddsNotes([], SplitNotes(right));
    AddNotesAddsNotes(ours, SplitNotes(right));
    AddNotesExtends(ours, SplitNotes(right));
    var all := AddNotes(ours, SplitNotes(right));
    if all == [] {
      assert NotesOf("") == [];
    } else {
      assert [] + all == all && "" + JoinNotes(all) == JoinNotes(all);
      NotesRoundTrip([], all, "");
    }
  }

  lemma {:induction false} AddNotesExtends(notes: seq<string>, parts: seq<string>)
    ensures notes <= AddNotes(notes, parts)
    decreases |parts|
  {
    if parts != [] {
      var cleaned := Strip(parts[0]);
      AddNotesExtends(if cleaned != "" && cleaned !in notes then notes + [cleaned] else notes, parts[1..]);
    }
  }
}
