/** Text as SQLite orders it and as Python splits and folds it. */
module Text {
  /** Binary collation: lexicographic by code point. */
  predicate Le(a: string, b: string)
    decreases |a|
  {
    a == "" || (b != "" && (a[0] < b[0] || (a[0] == b[0] && Le(a[1..], b[1..]))))
  }

  lemma {:induction false} LeTotal(a: string, b: string)
    ensures Le(a, b) || Le(b, a)
    ensures Le(a, b) && Le(b, a) ==> a == b
    decreases |a|
  {
    if a != "" && b != "" && a[0] == b[0] {
      LeTotal(a[1..], b[1..]);
      assert a == [a[0]] + a[1..] && b == [b[0]] + b[1..];
    }
  }

  lemma {:induction false} LeTransitive(a: string, b: string, c: string)
    requires Le(a, b) && Le(b, c)
    ensures Le(a, c)
    decreases |a|
  {
    if a != "" && a[0] == b[0] == c[0] {
      LeTransitive(a[1..], b[1..], c[1..]);
    }
  }

  /** Up to the k-th character the texts are one, there a is smaller. */
  ghost predicate SmallerAt(a: string, b: string, k: nat) {
    k < |a| && k < |b| && a[..k] == b[..k] && a[k] < b[k]
  }

  /** A text comes first if it begins the other one, or has the smaller character where they part. */
  lemma {:induction false} LeExactly(a: string, b: string)
    ensures Le(a, b) <==> a <= b || exists k: nat :: SmallerAt(a, b, k)
    decreases |a|
  {
    if a != "" && b != "" {
      if a[0] == b[0] {
        LeExactly(a[1..], b[1..]);
        if k: nat :| SmallerAt(a[1..], b[1..], k) {
          assert a[..k + 1] == [a[0]] + a[1..][..k] && b[..k + 1] == [b[0]] + b[1..][..k];
          assert SmallerAt(a, b, k + 1);
        }
        if k: nat :| SmallerAt(a, b, k) {
          assert a[1..][..k - 1] == a[..k][1..] && b[1..][..k - 1] == b[..k][1..];
          assert SmallerAt(a[1..], b[1..], k - 1);
        }
        assert a <= b <==> a[1..] <= b[1..] by {
          assert a == [a[0]] + a[1..] && b == [b[0]] + b[1..];
        }
      } else {
        assert a[0] < b[0] ==> SmallerAt(a, b, 0);
        if k: nat :| SmallerAt(a, b, k) {
          assert k > 0 ==> a[..k][0] == b[..k][0];
        }
      }
    }
  }

  /** The characters str.split() and str.strip() treat as white space. */
  predicate IsSpace(c: char) {
    var n := c as int;
    || 0x09 <= n <= 0x0D || 0x1C <= n <= 0x20 || n == 0x85 || n == 0xA0 || n == 0x1680
    || 0x2000 <= n <= 0x200A || n == 0x2028 || n == 0x2029 || n == 0x202F || n == 0x205F || n == 0x3000
  }

  function StripLeft(s: string): (r: string)
    ensures |r| <= |s|
    ensures r != "" ==> !IsSpace(r[0])
  {
    if s != "" && IsSpace(s[0]) then StripLeft(s[1..]) else s
  }

  function StripRight(s: string): string {
    if s != "" && IsSpace(s[|s| - 1]) then StripRight(s[..|s| - 1]) else s
  }

  /** str.strip() */
  function Strip(s: string): string {
    StripRight(StripLeft(s))
  }

  /** The characters up to the first white space. */
  function FirstWord(s: string): (w: string)
    ensures |w| <= |s| && w == s[..|w|]
    ensures s != "" && !IsSpace(s[0]) ==> w != ""
    ensures |w| < |s| ==> IsSpace(s[|w|])
    ensures forall i :: 0 <= i < |w| ==> !IsSpace(w[i])
  {
    if s == "" || IsSpace(s[0]) then "" else [s[0]] + FirstWord(s[1..])
  }

  /** str.split() */
  function Words(s: string): seq<string>
    decreases |s|
  {
    var t := StripLeft(s);
    if t == "" then [] else [FirstWord(t)] + Words(t[|FirstWord(t)|..])
  }

  /** What a word is to str.split(). */
  predicate IsWord(w: string) {
    w != "" && forall i :: 0 <= i < |w| ==> !IsSpace(w[i])
  }

  predicate AllWords(words: seq<string>) {
    forall i :: 0 <= i < |words| ==> IsWord(words[i])
  }

  /** str.casefold() is a per-character table that maps no character to nothing, keeps white space
      and makes none. */
  type Folding = f: char -> string |
    (forall c :: if IsSpace(c) then f(c) == [c] else IsWord(f(c))) witness c => [c]

  function Fold(fold: Folding, s: string): string {
    if s == "" then "" else fold(s[0]) + Fold(fold, s[1..])
  }

  function Join(words: seq<string>): string {
    if words == [] then "" else if |words| == 1 then words[0] else words[0] + " " + Join(words[1..])
  }

  /** normalize_company_name */
  function Normalize(fold: Folding, name: string): string {
    Fold(fold, Join(Words(name)))
  }

  lemma {:induction false} WordsIgnoreTrailingSpace(s: string, c: char)
    requires IsSpace(c)
    ensures Words(s + [c]) == Words(s)
    decreases |s|
  {
    if s == "" {
      assert StripLeft([c]) == StripLeft([c][1..]);
    } else if IsSpace(s[0]) {
      assert (s + [c])[1..] == s[1..] + [c];
      WordsIgnoreTrailingSpace(s[1..], c);
    } else {
      var w := FirstWord(s);
      FirstWordIgnoresTrailingSpace(s, c);
      assert (s + [c])[|w|..] == s[|w|..] + [c];
      WordsIgnoreTrailingSpace(s[|w|..], c);
    }
  }

  lemma {:induction false} FirstWordIgnoresTrailingSpace(s: string, c: char)
    requires IsSpace(c)
    ensures FirstWord(s + [c]) == FirstWord(s)
    decreases |s|
  {
    if s == "" {
    } else {
      assert (s + [c])[1..] == s[1..] + [c];
      FirstWordIgnoresTrailingSpace(s[1..], c);
    }
  }

  lemma {:induction false} WordsIgnoreStripRight(s: string)
    ensures Words(StripRight(s)) == Words(s)
    decreases |s|
  {
    if s != "" && IsSpace(s[|s| - 1]) {
      assert s == s[..|s| - 1] + [s[|s| - 1]];
      WordsIgnoreTrailingSpace(s[..|s| - 1], s[|s| - 1]);
      WordsIgnoreStripRight(s[..|s| - 1]);
    }
  }

  lemma {:induction false} StripLeftTwice(s: string)
    ensures StripLeft(StripLeft(s)) == StripLeft(s)
  {
  }

  /** Stripping a name never changes its identity, and only blank names have the empty one. */
  lemma NormalizeIgnoresStrip(fold: Folding, name: string)
    ensures Normalize(fold, Strip(name)) == Normalize(fold, name)
    ensures Normalize(fold, name) == "" <==> Strip(name) == ""
  {
    StripLeftTwice(name);
    WordsIgnoreStripRight(StripLeft(name));
    assert Words(StripLeft(name)) == Words(name);
    NotBlank(StripLeft(name));
    var words := Words(name);
    if words != [] {
      var t := StripLeft(name);
      assert words[0] == FirstWord(t) != "";
      assert Join(words) != "";
      assert Fold(fold, Join(words)) != "";
    }
  }

  lemma {:induction false} NotBlank(s: string)
    requires s != "" ==> !IsSpace(s[0])
    ensures StripRight(s) == "" <==> s == ""
    decreases |s|
  {
    if s != "" && IsSpace(s[|s| - 1]) {
      NotBlank(s[..|s| - 1]);
    }
  }

  lemma {:induction false} StripRightEnds(s: string)
    requires s != "" ==> !IsSpace(s[0])
    ensures StripRight(s) != "" ==>
      StripRight(s)[0] == s[0] && !IsSpace(StripRight(s)[|StripRight(s)| - 1])
    decreases |s|
  {
    if s != "" && IsSpace(s[|s| - 1]) {
      StripRightEnds(s[..|s| - 1]);
    }
  }

  predicate Blank(s: string) {
    forall i :: 0 <= i < |s| ==> IsSpace(s[i])
  }

  lemma {:induction false} StripLeftCuts(s: string) returns (i: nat)
    ensures i <= |s| && StripLeft(s) == s[i..] && Blank(s[..i])
  {
    if s != "" && IsSpace(s[0]) {
      i := StripLeftCuts(s[1..]);
      i := i + 1;
      assert s[i..] == s[1..][i - 1..] && s[..i] == [s[0]] + s[1..][..i - 1];
    } else {
      i := 0;
    }
  }

  lemma {:induction false} StripRightCuts(s: string) returns (j: nat)
    ensures j <= |s| && StripRight(s) == s[..j] && Blank(s[j..])
    decreases |s|
  {
    j := |s|;
    if s != "" && IsSpace(s[|s| - 1]) {
      j := StripRightCuts(s[..|s| - 1]);
      assert s[..j] == s[..|s| - 1][..j] && s[j..] == s[..|s| - 1][j..] + [s[|s| - 1]];
    }
  }

  /** Stripping cuts off exactly the white space around a text. */
  lemma StripCutsSpace(s: string) returns (i: nat, j: nat)
    ensures i <= j <= |s| && Strip(s) == s[i..j]
    ensures Blank(s[..i]) && Blank(s[j..])
    ensures i < j ==> !IsSpace(s[i]) && !IsSpace(s[j - 1])
  {
    i := StripLeftCuts(s);
    j := StripRightCuts(s[i..]);
    StripRightEnds(s[i..]);
    j := i + j;
    assert s[i..][..j - i] == s[i..j] && s[i..][j - i..] == s[j..];
  }

  lemma StripTwice(s: string)
    ensures Strip(Strip(s)) == Strip(s)
  {
    StripRightEnds(StripLeft(s));
  }

  // ---- What the words of a text are -----------------------------------------

  /** A text without its white space. */
  function Visible(s: string): string {
    if s == "" then "" else (if IsSpace(s[0]) then "" else [s[0]]) + Visible(s[1..])
  }

  function Concat(words: seq<string>): string {
    if words == [] then "" else words[0] + Concat(words[1..])
  }

  lemma {:induction false} FirstWordOf(w: string, rest: string)
    requires forall i :: 0 <= i < |w| ==> !IsSpace(w[i])
    requires rest == "" || IsSpace(rest[0])
    ensures FirstWord(w + rest) == w
    decreases |w|
  {
    if w == "" {
      assert w + rest == rest;
    } else {
      assert (w + rest)[1..] == w[1..] + rest;
      FirstWordOf(w[1..], rest);
    }
  }

  /** A word in front of the end or of white space is the first of the words. */
  lemma WordInFront(w: string, rest: string)
    requires IsWord(w) && (rest == "" || IsSpace(rest[0]))
    ensures Words(w + rest) == [w] + Words(rest)
  {
    FirstWordOf(w, rest);
    assert !IsSpace((w + rest)[0]);
    assert (w + rest)[|w|..] == rest;
  }

  lemma {:induction false} WordsAreWords(s: string)
    ensures AllWords(Words(s))
    decreases |s|
  {
    var t := StripLeft(s);
    if t != "" {
      WordsAreWords(t[|FirstWord(t)|..]);
    }
  }

  lemma {:induction false} StripLeftKeepsVisible(s: string)
    ensures Visible(StripLeft(s)) == Visible(s)
  {
    if s != "" && IsSpace(s[0]) {
      StripLeftKeepsVisible(s[1..]);
    }
  }

  lemma {:induction false} VisibleWord(w: string, rest: string)
    requires forall i :: 0 <= i < |w| ==> !IsSpace(w[i])
    ensures Visible(w + rest) == w + Visible(rest)
    decreases |w|
  {
    if w == "" {
      assert w + rest == rest;
    } else {
      assert (w + rest)[1..] == w[1..] + rest;
      VisibleWord(w[1..], rest);
    }
  }

  /** The words of a text, put together, are the text without its white space. */
  lemma {:induction false} WordsKeepTheText(s: string)
    ensures Concat(Words(s)) == Visible(s)
    decreases |s|
  {
    StripLeftKeepsVisible(s);
    var t := StripLeft(s);
    if t != "" {
      var w := FirstWord(t);
      assert t == w + t[|w|..];
      VisibleWord(w, t[|w|..]);
      WordsKeepTheText(t[|w|..]);
    }
  }

  lemma StripLeftIgnoresSpace(c: char, s: string)
    requires IsSpace(c)
    ensures StripLeft([c] + s) == StripLeft(s) && Words([c] + s) == Words(s)
  {
    assert ([c] + s)[1..] == s;
  }

  lemma {:induction false} WordsBeforeSpace(a: string, rest: string)
    requires rest != "" && IsSpace(rest[0])
    ensures Words(a + rest) == Words(a) + Words(rest)
    decreases |a|
  {
    if a == "" {
      assert a + rest == rest;
    } else {
      var n := if IsSpace(a[0]) then 1 else |FirstWord(a)|;
      WordsBeforeSpace(a[n..], rest);
      Regroup(a, n, rest);
      if IsSpace(a[0]) {
        StripLeftIgnoresSpace(a[0], a[n..]);
        StripLeftIgnoresSpace(a[0], a[n..] + rest);
      } else {
        WordInFront(a[..n], a[n..]);
        WordInFront(a[..n], a[n..] + rest);
      }
    }
  }

  lemma Regroup(a: string, n: nat, rest: string)
    requires 1 <= n <= |a|
    ensures a == a[..n] + a[n..] && a + rest == a[..n] + (a[n..] + rest)
    ensures n == 1 ==> a[..n] == [a[0]]
  {
  }

  /** White space ends a word wherever it stands. */
  lemma WordsSplitAtSpace(a: string, c: char, b: string)
    requires IsSpace(c)
    ensures Words(a + [c] + b) == Words(a) + Words(b)
  {
    WordsBeforeSpace(a, [c] + b);
    StripLeftIgnoresSpace(c, b);
    assert a + [c] + b == a + ([c] + b);
  }

  /** Joining words and splitting again gives the same words. */
  lemma {:induction false} WordsOfJoin(words: seq<string>)
    requires AllWords(words)
    ensures Words(Join(words)) == words
    decreases |words|
  {
    if words != [] {
      var w := words[0];
      WordInFront(w, "");
      assert w + "" == w;
      if |words| > 1 {
        WordsOfJoin(words[1..]);
        WordsSplitAtSpace(w, ' ', Join(words[1..]));
      }
    }
  }

  function FoldEach(fold: Folding, words: seq<string>): (r: seq<string>)
    ensures |r| == |words| && forall i :: 0 <= i < |words| ==> r[i] == Fold(fold, words[i])
  {
    if words == [] then [] else [Fold(fold, words[0])] + FoldEach(fold, words[1..])
  }

  lemma {:induction false} FoldConcat(fold: Folding, a: string, b: string)
    ensures Fold(fold, a + b) == Fold(fold, a) + Fold(fold, b)
    decreases |a|
  {
    if a == "" {
      assert a + b == b;
    } else {
      assert (a + b)[1..] == a[1..] + b;
      FoldConcat(fold, a[1..], b);
    }
  }

  lemma {:induction false} FoldedWordIsWord(fold: Folding, w: string)
    requires IsWord(w)
    ensures IsWord(Fold(fold, w))
    decreases |w|
  {
    assert IsWord(fold(w[0]));
    if |w| > 1 {
      FoldedWordIsWord(fold, w[1..]);
    }
  }

  lemma {:induction false} FoldOfJoin(fold: Folding, words: seq<string>)
    ensures Fold(fold, Join(words)) == Join(FoldEach(fold, words))
    decreases |words|
  {
    if |words| > 1 {
      FoldOfJoin(fold, words[1..]);
      FoldConcat(fold, words[0] + " ", Join(words[1..]));
      FoldConcat(fold, words[0], " ");
      assert IsSpace(' ') && Fold(fold, " ") == " ";
      assert FoldEach(fold, words)[1..] == FoldEach(fold, words[1..]);
    }
  }

  lemma FoldedWords(fold: Folding, name: string)
    ensures Words(Normalize(fold, name)) == FoldEach(fold, Words(name))
    ensures Normalize(fold, name) == Join(FoldEach(fold, Words(name)))
  {
    var words := Words(name);
    WordsAreWords(name);
    FoldOfJoin(fold, words);
    forall i | 0 <= i < |words| ensures IsWord(FoldEach(fold, words)[i]) {
      FoldedWordIsWord(fold, words[i]);
    }
    WordsOfJoin(FoldEach(fold, words));
  }

  /** Two names have one key exactly if they have the same words up to case. */
  lemma SameKeyExactly(fold: Folding, a: string, b: string)
    ensures Normalize(fold, a) == Normalize(fold, b) <==> FoldEach(fold, Words(a)) == FoldEach(fold, Words(b))
  {
    FoldedWords(fold, a);
    FoldedWords(fold, b);
  }

  lemma {:induction false} FoldsAlike(fold: Folding, a: string, b: string)
    requires |a| == |b| && forall i :: 0 <= i < |a| ==> fold(a[i]) == fold(b[i])
    ensures Fold(fold, a) == Fold(fold, b)
  {
    if a != "" {
      FoldsAlike(fold, a[1..], b[1..]);
    }
  }

  /** Folding a text folds its words and moves no word boundary. */
  lemma {:induction false} WordsOfFolded(fold: Folding, s: string)
    ensures Words(Fold(fold, s)) == FoldEach(fold, Words(s))
    decreases |s|
  {
    if s == "" {
    } else if IsSpace(s[0]) {
      StripLeftIgnoresSpace(s[0], s[1..]);
      assert s == [s[0]] + s[1..];
      StripLeftIgnoresSpace(s[0], Fold(fold, s[1..]));
      WordsOfFolded(fold, s[1..]);
    } else {
      var w := FirstWord(s);
      var rest := s[|w|..];
      assert s == w + rest;
      WordInFront(w, rest);
      FoldConcat(fold, w, rest);
      FoldedWordIsWord(fold, w);
      WordInFront(Fold(fold, w), Fold(fold, rest));
      WordsOfFolded(fold, rest);
    }
  }

  /** Two names whose characters differ in case only have one key. */
  lemma CaseIsIgnored(fold: Folding, a: string, b: string)
    requires |a| == |b| && forall i :: 0 <= i < |a| ==> fold(a[i]) == fold(b[i])
    ensures Normalize(fold, a) == Normalize(fold, b)
  {
    FoldsAlike(fold, a, b);
    WordsOfFolded(fold, a);
    WordsOfFolded(fold, b);
    SameKeyExactly(fold, a, b);
  }

  /** Under a folding that changes nothing: exactly if they have the same words. */
  lemma SameWordsWithoutFolding(fold: Folding, a: string, b: string)
    requires forall c :: fold(c) == [c]
    ensures Normalize(fold, a) == Normalize(fold, b) <==> Words(a) == Words(b)
  {
    SameKeyExactly(fold, a, b);
    FoldsNothing(fold, Words(a));
    FoldsNothing(fold, Words(b));
  }

  lemma {:induction false} FoldsNothing(fold: Folding, words: seq<string>)
    requires forall c :: fold(c) == [c]
    ensures FoldEach(fold, words) == words
  {
    forall i | 0 <= i < |words| ensures Fold(fold, words[i]) == words[i] {
      TextUnfolded(fold, words[i]);
    }
  }

  lemma {:induction false} TextUnfolded(fold: Folding, s: string)
    requires forall c :: fold(c) == [c]
    ensures Fold(fold, s) == s
  {
    if s != "" {
      TextUnfolded(fold, s[1..]);
    }
  }
}
