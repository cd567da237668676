/**
 Deduplication of spreadsheet companies in excel_tools.py: rows with one key are merged
 into the better one, and deduplicating twice changes nothing.
 */
module CompanyDedupe {
  import opened Text
  import opened Wrappers
  import opened Grouping
  import opened SpreadsheetText

  datatype Column =
    | CompanyID | CompanyName | Industry | CompanyDescription | City | State | Country | KnownWebsite
    | OfficialWebsite | WebsiteDiscoveryMethod | WebsiteCandidateURLs | WebsiteVerificationNotes
    | WebsiteVerified | CareersPageURL | JobBoardURL | JobBoardDiscoveryMethod | JobsRSSFeedURL
    | JobPlatform | FeedFound | SearchStatus | Confidence | LastChecked | Notes | FoundedYear
    | TotalAssets | AssetsAsOfDate | CompanyInformationLastChecked

  const OUTPUT_COLUMNS: seq<Column> := [
    CompanyID, CompanyName, Industry, CompanyDescription, City, State, Country, KnownWebsite,
    OfficialWebsite, WebsiteDiscoveryMethod, WebsiteCandidateURLs, WebsiteVerificationNotes,
    WebsiteVerified, CareersPageURL, JobBoardURL, JobBoardDiscoveryMethod, JobsRSSFeedURL,
    JobPlatform, FeedFound, SearchStatus, Confidence, LastChecked, Notes, FoundedYear,
    TotalAssets, AssetsAsOfDate, CompanyInformationLastChecked]

  /** What a cell may hold. */
  datatype Cell = Null | Str(s: string) | Bool(b: bool) | Number(n: real)

  /** A row under the output columns. */
  type Row = map<Column, Cell>

  /** The library functions the rows go through: str, lower, isalnum, the host of a URL
      (normalized_domain, empty for the empty text) and normalize_confidence. */
  datatype Library = Library(text: Cell -> string, lower: string -> string, alnum: Alphanumeric,
                             domain: string -> string, confidence: Cell -> int)
  {
    ghost predicate Valid() {
      domain("") == "" && forall s :: text(Str(s)) == s
    }
  }

  predicate Truthy(cell: Cell) {
    match cell
    case Null => false
    case Str(s) => s != ""
    case Bool(b) => b
    case Number(n) => n != 0.0
  }

  predicate Total(row: Row) {
    forall c: Column :: c in row
  }

  /** str(cell or "") */
  function TextOf(library: Library, cell: Cell): string {
    if Truthy(cell) then library.text(cell) else ""
  }

  function Or(a: Cell, b: Cell): Cell {
    if Truthy(a) then a else b
  }

  // ---- Keys -----------------------------------------------------------------

  function Website(row: Row): Cell
    requires Total(row)
  {
    Or(row[OfficialWebsite], row[KnownWebsite])
  }

  function DomainOf(library: Library, row: Row): string
    requires Total(row)
  {
    library.domain(TextOf(library, Website(row)))
  }

  function SlugOf(library: Library, cell: Cell): string {
    Slug(library.alnum, library.lower(TextOf(library, cell)))
  }

  /** company_dedupe_key */
  function Key(library: Library, row: Row): string
    requires Total(row)
  {
    var domain := DomainOf(library, row);
    if domain != "" then "domain:" + domain
    else "name-state:" + SlugOf(library, row[CompanyName]) + ":" + SlugOf(library, row[State])
  }

  /** stable_company_id */
  function StableId(library: Library, row: Row): (id: string)
    requires Total(row)
    ensures id != ""
  {
    var domain := DomainOf(library, row);
    if domain != "" then "company-" + Slug(library.alnum, library.lower(domain))
    else "company-" + SlugOf(library, row[CompanyName]) + "-" + SlugOf(library, row[State])
  }

  lemma JoinedSlugsDiffer(a: string, b: string, c: string, d: string)
    requires ':' !in a && ':' !in c && a + ":" + b == c + ":" + d
    ensures a == c && b == d
  {
    var left, right := a + ":" + b, c + ":" + d;
    assert left[|a|] == ':' && right[|c|] == ':';
    assert forall i :: 0 <= i < |a| ==> left[i] == a[i];
    assert forall i :: 0 <= i < |c| ==> right[i] == c[i];
    assert |a| == |c|;
    assert a == left[..|a|] && c == right[..|c|];
    assert b == left[|a| + 1..] && d == right[|c| + 1..];
  }

  /** Rows of one key have one domain, or no domain and the same name and state slugs. */
  lemma SameKeyMeaning(library: Library, a: Row, b: Row)
    requires Total(a) && Total(b) && Key(library, a) == Key(library, b)
    ensures DomainOf(library, a) == DomainOf(library, b)
    ensures DomainOf(library, a) == "" ==>
      && SlugOf(library, a[CompanyName]) == SlugOf(library, b[CompanyName])
      && SlugOf(library, a[State]) == SlugOf(library, b[State])
  {
    var x, y := DomainOf(library, a), DomainOf(library, b);
    assert x != "" ==> Key(library, a)[0] == 'd';
    assert x == "" ==> Key(library, a)[0] == 'n';
    assert y != "" ==> Key(library, b)[0] == 'd';
    assert y == "" ==> Key(library, b)[0] == 'n';
    if x != "" {
      assert Key(library, a)[|"domain:"|..] == x && Key(library, b)[|"domain:"|..] == y;
    } else {
      var n, s := SlugOf(library, a[CompanyName]), SlugOf(library, a[State]);
      var m, t := SlugOf(library, b[CompanyName]), SlugOf(library, b[State]);
      assert Key(library, a)[|"name-state:"|..] == n + ":" + s;
      assert Key(library, b)[|"name-state:"|..] == m + ":" + t;
      SlugIsASlug(library.alnum, library.lower(TextOf(library, a[CompanyName])));
      SlugIsASlug(library.alnum, library.lower(TextOf(library, b[CompanyName])));
      JoinedSlugsDiffer(n, s, m, t);
    }
  }

  /** A row whose name, state and addresses are texts, as read from a sheet of texts. */
  predicate HoldsTexts(row: Row, name: string, state: string, official: string, known: string) {
    && Total(row) && row[CompanyName] == Str(name) && row[State] == Str(state)
    && row[OfficialWebsite] == Str(official) && row[KnownWebsite] == Str(known)
  }

  /** The domain of the official website, or of the known one if there is none. */
  function HostOf(library: Library, official: string, known: string): string {
    library.domain(if official != "" then official else known)
  }

  function SlugOfText(library: Library, s: string): string {
    Slug(library.alnum, library.lower(s))
  }

  /** Two rows of texts have one key exactly if they have one domain, or none and equal slugs. */
  lemma SameKeyExactly(
    library: Library, a: Row, name: string, state: string, official: string, known: string,
    b: Row, otherName: string, otherState: string, otherOfficial: string, otherKnown: string)
    requires library.Valid()
    requires HoldsTexts(a, name, state, official, known)
    requires HoldsTexts(b, otherName, otherState, otherOfficial, otherKnown)
    ensures Key(library, a) == Key(library, b) <==>
      var host, otherHost := HostOf(library, official, known), HostOf(library, otherOfficial, otherKnown);
      && host == otherHost
      && (host == "" ==>
            && SlugOfText(library, name) == SlugOfText(library, otherName)
            && SlugOfText(library, state) == SlugOfText(library, otherState))
  {
    TextsDecide(library, a, name, state, official, known);
    TextsDecide(library, b, otherName, otherState, otherOfficial, otherKnown);
    if Key(library, a) == Key(library, b) {
      SameKeyMeaning(library, a, b);
    }
  }

  /** What the identifier of such a row is made of. */
  lemma TextsDecide(library: Library, row: Row, name: string, state: string, official: string, known: string)
    requires library.Valid() && HoldsTexts(row, name, state, official, known)
    ensures DomainOf(library, row) == HostOf(library, official, known)
    ensures SlugOf(library, row[CompanyName]) == SlugOfText(library, name)
    ensures SlugOf(library, row[State]) == SlugOfText(library, state)
    ensures var host := HostOf(library, official, known);
      StableId(library, row) == "company-" +
        if host == "" then SlugOfText(library, name) + "-" + SlugOfText(library, state) else SlugOfText(library, host)
  {
  }

  // ---- Normal rows ----------------------------------------------------------

  /** What normalize_company_row leaves alone, once the row has a name. */
  predicate Normal(row: Row) {
    && Total(row) && (forall c: Column :: row[c] != Null)
    && Truthy(row[CompanyID]) && Truthy(row[JobBoardDiscoveryMethod]) && Truthy(row[WebsiteDiscoveryMethod])
    && row[WebsiteVerified] != Str("")
  }

  function Filled(raw: map<Column, Cell>): (row: Row)
    ensures Total(row)
  {
    map c: Column | true :: if c in raw && raw[c] != Null then raw[c] else Str("")
  }

  /** normalize_company_row; `name` is the value under the key "name", if any. */
  function NormalizeRow(library: Library, raw: map<Column, Cell>, name: string): (row: Row)
    ensures Total(row)
  {
    var r0 := Filled(raw);
    var r1 := if Truthy(r0[CompanyName]) then r0 else r0[CompanyName := Str(name)];
    var r2 := if Truthy(r1[CompanyID]) then r1 else r1[CompanyID := Str(StableId(library, r1))];
    var r3 := if Truthy(r2[JobBoardDiscoveryMethod]) then r2 else r2[JobBoardDiscoveryMethod := Str("Not Found")];
    var r4 := if Truthy(r3[WebsiteDiscoveryMethod]) then r3 else r3[WebsiteDiscoveryMethod := Str("Not Found")];
    if r4[WebsiteVerified] == Str("") then r4[WebsiteVerified := Bool(false)] else r4
  }

  lemma NormalizedIsNormal(library: Library, raw: map<Column, Cell>, name: string)
    ensures Normal(NormalizeRow(library, raw, name))
  {
  }

  predicate Given(raw: map<Column, Cell>, c: Column) {
    c in raw && raw[c] != Null
  }

  const DEFAULTED: set<Column> :=
    {CompanyName, CompanyID, JobBoardDiscoveryMethod, WebsiteDiscoveryMethod, WebsiteVerified}

  /** What normalize_company_row keeps: every cell that is given and says something, and in the columns
      without a default also False and zero. */
  lemma NormalizedKeeps(library: Library, raw: map<Column, Cell>, name: string, c: Column)
    ensures Given(raw, c) && (Truthy(raw[c]) || c !in DEFAULTED || (c == WebsiteVerified && raw[c] != Str(""))) ==>
      NormalizeRow(library, raw, name)[c] == raw[c]
    ensures !Given(raw, c) && c !in DEFAULTED ==> NormalizeRow(library, raw, name)[c] == Str("")
  {
  }

  /** What it fills in: the other name, "Not Found" and False. */
  lemma NormalizedFills(library: Library, raw: map<Column, Cell>, name: string, c: Column)
    requires !Given(raw, c) || raw[c] == Str("") || (c != WebsiteVerified && !Truthy(raw[c]))
    ensures var cell := NormalizeRow(library, raw, name)[c];
      && (c == CompanyName ==> cell == Str(name))
      && (c in {JobBoardDiscoveryMethod, WebsiteDiscoveryMethod} ==> cell == Str("Not Found"))
      && (c == WebsiteVerified ==> cell == Bool(false))
  {
  }

  /** And the identifier of the row itself. */
  lemma NormalizedIdentifies(library: Library, raw: map<Column, Cell>, name: string)
    requires !Given(raw, CompanyID) || !Truthy(raw[CompanyID])
    ensures var row := NormalizeRow(library, raw, name); row[CompanyID] == Str(StableId(library, row))
  {
    var row := NormalizeRow(library, raw, name);
    var r0 := Filled(raw);
    var named := if Truthy(r0[CompanyName]) then r0 else r0[CompanyName := Str(name)];
    assert row[CompanyID] == Str(StableId(library, named));
    assert row[CompanyName] == named[CompanyName] && row[State] == named[State];
    assert Website(row) == Website(named);
  }

  lemma NormalIsStable(library: Library, row: Row)
    requires Normal(row) && Truthy(row[CompanyName])
    ensures NormalizeRow(library, row, "") == row
  {
    assert Filled(row) == row;
  }

  // ---- Merging --------------------------------------------------------------

  datatype Score = Score(jobBoard: int, careers: int, official: int, confidence: int, lastChecked: string)

  /** row_quality_score */
  function Quality(library: Library, row: Row): Score
    requires Total(row)
  {
    Score(
      if Truthy(row[JobBoardURL]) then 1 else 0,
      if Truthy(row[CareersPageURL]) then 1 else 0,
      if Truthy(row[OfficialWebsite]) then 1 else 0,
      library.confidence(row[Confidence]),
      TextOf(library, row[LastChecked]))
  }

  /** The order of Python tuples. */
  predicate AtMost(a: Score, b: Score) {
    if a.jobBoard != b.jobBoard then a.jobBoard < b.jobBoard
    else if a.careers != b.careers then a.careers < b.careers
    else if a.official != b.official then a.official < b.official
    else if a.confidence != b.confidence then a.confidence < b.confidence
    else Le(a.lastChecked, b.lastChecked)
  }

  predicate PrefersLeft(library: Library, left: Row, right: Row)
    requires Total(left) && Total(right)
  {
    AtMost(Quality(library, right), Quality(library, left))
  }

  /** One column of merge_company_rows. */
  function MergedCell(library: Library, left: Row, right: Row, c: Column): Cell
    requires Total(left) && Total(right)
  {
    if c == Notes then Str(Combined(TextOf(library, left[Notes]), TextOf(library, right[Notes])))
    else if c == Confidence then
      if library.confidence(right[Confidence]) > library.confidence(left[Confidence])
      then right[Confidence] else left[Confidence]
    else
      var preferred, other := if PrefersLeft(library, left, right) then left else right,
                              if PrefersLeft(library, left, right) then right else left;
      if !Truthy(preferred[c]) && Truthy(other[c]) then other[c] else preferred[c]
  }

  function Merged(library: Library, left: Row, right: Row): (row: Row)
    requires Total(left) && Total(right)
    ensures Total(row)
  {
    map c: Column | true :: MergedCell(library, left, right, c)
  }

  lemma EveryColumnIsWritten(c: Column)
    ensures c in OUTPUT_COLUMNS
  {
    assert OUTPUT_COLUMNS[0] == CompanyID && OUTPUT_COLUMNS[26] == CompanyInformationLastChecked;
  }

  lemma MergeKeepsDomain(library: Library, left: Row, right: Row)
    requires library.Valid() && Total(left) && Total(right)
    requires DomainOf(library, left) == DomainOf(library, right)
    ensures DomainOf(library, Merged(library, left, right)) == DomainOf(library, left)
  {
    var merged := Merged(library, left, right);
    assert Truthy(Website(merged)) ==> Website(merged) in {Website(left), Website(right)};
    assert !Truthy(Website(merged)) ==> !Truthy(Website(left)) && !Truthy(Website(right));
  }

  lemma MergeKeepsSlug(library: Library, left: Row, right: Row, c: Column)
    requires Total(left) && Total(right) && c in {CompanyName, State}
    requires SlugOf(library, left[c]) == SlugOf(library, right[c])
    ensures SlugOf(library, Merged(library, left, right)[c]) == SlugOf(library, left[c])
  {
    MergedCellIsOneOfTwo(library, left, right, c);
  }

  /** A merge keeps the key both rows had. */
  lemma MergeKeepsKey(library: Library, left: Row, right: Row)
    requires library.Valid() && Total(left) && Total(right) && Key(library, left) == Key(library, right)
    ensures Key(library, Merged(library, left, right)) == Key(library, left)
  {
    SameKeyMeaning(library, left, right);
    MergeKeepsDomain(library, left, right);
    if DomainOf(library, left) == "" {
      MergeKeepsSlug(library, left, right, CompanyName);
      MergeKeepsSlug(library, left, right, State);
    }
  }

  /** A merge is at least as good as both rows. */
  lemma MergeKeepsQuality(library: Library, left: Row, right: Row)
    requires Total(left) && Total(right)
    ensures AtMost(Quality(library, left), Quality(library, Merged(library, left, right)))
    ensures AtMost(Quality(library, right), Quality(library, Merged(library, left, right)))
  {
    var l, r, m := Quality(library, left), Quality(library, right), Quality(library, Merged(library, left, right));
    LeTotal(l.lastChecked, r.lastChecked);
    LeTotal(m.lastChecked, m.lastChecked);
  }

  lemma {:induction false} AtMostIsAnOrder(a: Score, b: Score)
    ensures AtMost(a, b) || AtMost(b, a)
    ensures AtMost(a, b) && AtMost(b, a) ==> a == b
  {
    LeTotal(a.lastChecked, b.lastChecked);
  }

  function Preferred(library: Library, left: Row, right: Row): Row
    requires Total(left) && Total(right)
  {
    if PrefersLeft(library, left, right) then left else right
  }

  /** A row is better at the first of these in which it differs: a job board, a careers page, a
      website, the confidence, the time of the last check. */
  predicate Outranks(library: Library, a: Row, b: Row)
    requires Total(a) && Total(b)
  {
    if Truthy(a[JobBoardURL]) != Truthy(b[JobBoardURL]) then Truthy(a[JobBoardURL])
    else if Truthy(a[CareersPageURL]) != Truthy(b[CareersPageURL]) then Truthy(a[CareersPageURL])
    else if Truthy(a[OfficialWebsite]) != Truthy(b[OfficialWebsite]) then Truthy(a[OfficialWebsite])
    else ChecksOutrank(library, a, b)
  }

  predicate ChecksOutrank(library: Library, a: Row, b: Row)
    requires Total(a) && Total(b)
  {
    var c, d := library.confidence(a[Confidence]), library.confidence(b[Confidence]);
    c > d || (c == d && !Le(TextOf(library, a[LastChecked]), TextOf(library, b[LastChecked])))
  }

  /** A merge is filled from the better row, and of equals from the left one. */
  lemma BetterRowWins(library: Library, left: Row, right: Row)
    requires Total(left) && Total(right)
    ensures Preferred(library, left, right) == if Outranks(library, right, left) then right else left
    ensures !(Outranks(library, left, right) && Outranks(library, right, left))
  {
    LeTotal(Quality(library, left).lastChecked, Quality(library, right).lastChecked);
  }

  /** The cells of a merge besides notes and confidence: the preferred row's, and where it has none
      the other's. */
  lemma MergeFillsFromOther(library: Library, left: Row, right: Row, c: Column)
    requires Total(left) && Total(right) && c !in {Notes, Confidence}
    ensures var better := Preferred(library, left, right);
      Truthy(better[c]) || (!Truthy(left[c]) && !Truthy(right[c])) ==> Merged(library, left, right)[c] == better[c]
    ensures !Truthy(left[c]) && Truthy(right[c]) ==> Merged(library, left, right)[c] == right[c]
    ensures Truthy(left[c]) && !Truthy(right[c]) ==> Merged(library, left, right)[c] == left[c]
  {
  }

  /** The confidence of a merge: the higher one, of equals the left one. */
  lemma MergeKeepsConfidence(library: Library, left: Row, right: Row)
    requires Total(left) && Total(right)
    ensures var merged := Merged(library, left, right);
      && library.confidence(merged[Confidence]) >= library.confidence(left[Confidence])
      && library.confidence(merged[Confidence]) >= library.confidence(right[Confidence])
      && (library.confidence(merged[Confidence]) == library.confidence(left[Confidence]) ==>
            merged[Confidence] == left[Confidence])
  {
  }

  lemma MergedCellIsOneOfTwo(library: Library, left: Row, right: Row, c: Column)
    requires Total(left) && Total(right)
    ensures c != Notes ==> MergedCell(library, left, right, c) in {left[c], right[c]}
  {
  }

  lemma MergeIsNormal(library: Library, left: Row, right: Row)
    requires Normal(left) && Normal(right) && Truthy(left[CompanyName]) && Truthy(right[CompanyName])
    ensures Normal(Merged(library, left, right)) && Truthy(Merged(library, left, right)[CompanyName])
  {
    var merged := Merged(library, left, right);
    forall c: Column ensures merged[c] != Null {
      MergedCellIsOneOfTwo(library, left, right, c);
    }
    MergedCellIsOneOfTwo(library, left, right, CompanyID);
    MergedCellIsOneOfTwo(library, left, right, CompanyName);
    MergedCellIsOneOfTwo(library, left, right, JobBoardDiscoveryMethod);
    MergedCellIsOneOfTwo(library, left, right, WebsiteDiscoveryMethod);
    MergedCellIsOneOfTwo(library, left, right, WebsiteVerified);
  }

  /** The preferred row after the columns in `written` have been merged one by one. */
  function MergedOver(library: Library, left: Row, right: Row, written: seq<Column>): (row: Row)
    requires Total(left) && Total(right)
    ensures Total(row)
  {
    if written == [] then Preferred(library, left, right)
    else
      var c := written[|written| - 1];
      MergedOver(library, left, right, written[..|written| - 1])[c := MergedCell(library, left, right, c)]
  }

  lemma {:induction false} MergedOverAt(library: Library, left: Row, right: Row, written: seq<Column>, c: Column)
    requires Total(left) && Total(right)
    ensures MergedOver(library, left, right, written)[c] ==
      if c in written then MergedCell(library, left, right, c) else Preferred(library, left, right)[c]
    decreases |written|
  {
    if written != [] {
      MergedOverAt(library, left, right, written[..|written| - 1], c);
    }
  }

  /** One round of the loop of merge_company_rows. */
  method MergeColumn(library: Library, left: Row, right: Row, other: Row, merged: Row, c: Column) returns (next: Row)
    requires Total(left) && Total(right) && other == (if PrefersLeft(library, left, right) then right else left)
    requires Total(merged) && merged[c] in {Preferred(library, left, right)[c], MergedCell(library, left, right, c)}
    ensures next == merged[c := MergedCell(library, left, right, c)]
  {
    next := merged;
    if c == Notes {
      var notes := CombineUniqueNotes(TextOf(library, left[Notes]), TextOf(library, right[Notes]));
      next := merged[c := Str(notes)];
    } else if c == Confidence {
      var best := if library.confidence(right[c]) > library.confidence(left[c]) then right[c] else left[c];
      next := merged[c := best];
    } else if !Truthy(merged[c]) && Truthy(other[c]) {
      next := merged[c := other[c]];
    }
  }

  method MergeColumns(library: Library, left: Row, right: Row, preferred: Row, other: Row, columns: seq<Column>)
    returns (merged: Row)
    requires Total(left) && Total(right)
    requires (preferred, other) == if PrefersLeft(library, left, right) then (left, right) else (right, left)
    ensures merged == MergedOver(library, left, right, columns)
  {
    merged := preferred;
    for n := 0 to |columns|
      invariant merged == MergedOver(library, left, right, columns[..n])
    {
      MergedOverAt(library, left, right, columns[..n], columns[n]);
      merged := MergeColumn(library, left, right, other, merged, columns[n]);
      assert columns[..n + 1][..n] == columns[..n];
    }
    assert columns[..|columns|] == columns;
  }

  lemma MergedOverAll(library: Library, left: Row, right: Row)
    requires Total(left) && Total(right)
    ensures MergedOver(library, left, right, OUTPUT_COLUMNS) == Merged(library, left, right)
  {
    forall c: Column
      ensures MergedOver(library, left, right, OUTPUT_COLUMNS)[c] == MergedCell(library, left, right, c)
    {
      EveryColumnIsWritten(c);
      MergedOverAt(library, left, right, OUTPUT_COLUMNS, c);
    }
  }

  /** A row that stands for a company. */
  ghost predicate Named(row: Row) {
    Normal(row) && Truthy(row[CompanyName])
  }

  type NamedRow = row: Row | Named(row) ghost witness map c: Column | true :: Str("x")

  /** merge_company_rows; the final normalization finds nothing to do. */
  method MergeRows(library: Library, left: NamedRow, right: NamedRow) returns (merged: NamedRow)
    ensures merged == Merged(library, left, right)
  {
    var preferred, other := left, right;
    if !PrefersLeft(library, left, right) {
      preferred, other := right, left;
    }
    var row := MergeColumns(library, left, right, preferred, other, OUTPUT_COLUMNS);
    MergedOverAll(library, left, right);
    MergeIsNormal(library, left, right);
    NormalIsStable(library, row);
    merged := NormalizeRow(library, row, "");
  }

  // ---- Deduplication --------------------------------------------------------

  /** `better` is at least as good a row of the same company: same key, quality at least as
      high, and every note still there. */
  predicate Absorbs(library: Library, better: NamedRow, row: NamedRow) {
    && Key(library, better) == Key(library, row)
    && AtMost(Quality(library, row), Quality(library, better))
    && forall note :: note in NotesOf(TextOf(library, row[Notes])) ==> note in NotesOf(TextOf(library, better[Notes]))
  }

  function KeyOf(library: Library): NamedRow -> string {
    (row: NamedRow) => Key(library, row)
  }

  function MergeOf(library: Library): (NamedRow, NamedRow) -> NamedRow {
    (left: NamedRow, right: NamedRow) => MergedRow(library, left, right)
  }

  ghost function AbsorbsOf(library: Library): (NamedRow, NamedRow) -> bool {
    (better: NamedRow, row: NamedRow) => Absorbs(library, better, row)
  }

  /** str(row.get("Company Name", "")).lower() */
  function SortNameOf(library: Library): NamedRow -> string {
    (row: NamedRow) => library.lower(library.text(row[CompanyName]))
  }

  function MergedRow(library: Library, left: NamedRow, right: NamedRow): NamedRow {
    MergeIsNormal(library, left, right);
    Merged(library, left, right)
  }

  lemma AtMostChain(a: Score, b: Score, c: Score)
    requires AtMost(a, b) && AtMost(b, c)
    ensures AtMost(a, c)
  {
    if Le(a.lastChecked, b.lastChecked) && Le(b.lastChecked, c.lastChecked) {
      LeTransitive(a.lastChecked, b.lastChecked, c.lastChecked);
    }
  }

  /** The notes of a merge are exactly those of both rows, each once. */
  lemma MergedNotes(library: Library, left: NamedRow, right: NamedRow)
    requires library.Valid()
    ensures var notes := NotesOf(TextOf(library, Merged(library, left, right)[Notes]));
      && AreNotes(notes)
      && forall note :: note in notes <==>
           note in NotesOf(TextOf(library, left[Notes])) || note in NotesOf(TextOf(library, right[Notes]))
  {
    var l, r := TextOf(library, left[Notes]), TextOf(library, right[Notes]);
    assert TextOf(library, Merged(library, left, right)[Notes]) == Combined(l, r);
    CombinedIsTheUnion(l, r);
  }

  lemma MergeAbsorbs(library: Library, left: NamedRow, right: NamedRow)
    requires library.Valid() && Key(library, left) == Key(library, right)
    ensures Absorbs(library, MergedRow(library, left, right), left)
    ensures Absorbs(library, MergedRow(library, left, right), right)
  {
    MergeKeepsKey(library, left, right);
    MergeKeepsQuality(library, left, right);
    MergedNotes(library, left, right);
  }

  lemma AbsorbsItself(library: Library, a: NamedRow)
    ensures Absorbs(library, a, a)
  {
    LeTotal(Quality(library, a).lastChecked, Quality(library, a).lastChecked);
  }

  lemma AbsorbsChain(library: Library, a: NamedRow, b: NamedRow, c: NamedRow)
    requires Absorbs(library, a, b) && Absorbs(library, b, c)
    ensures Absorbs(library, a, c)
  {
    AtMostChain(Quality(library, c), Quality(library, b), Quality(library, a));
  }

  lemma LawsHold(library: Library)
    requires library.Valid()
    ensures MergeLaws(KeyOf(library), MergeOf(library), AbsorbsOf(library))
  {
    var key, merge, absorbs := KeyOf(library), MergeOf(library), AbsorbsOf(library);
    forall a: NamedRow, b: NamedRow | key(a) == key(b) ensures absorbs(merge(a, b), a) && absorbs(merge(a, b), b) {
      MergeAbsorbs(library, a, b);
    }
    forall a: NamedRow ensures absorbs(a, a) {
      AbsorbsItself(library, a);
    }
    forall a: NamedRow, b: NamedRow, c: NamedRow | absorbs(a, b) && absorbs(b, c) ensures absorbs(a, c) {
      AbsorbsChain(library, a, b, c);
    }
  }

  /** A spreadsheet row as read; `name` is what stands under the key "name". */
  datatype Raw = Raw(cells: map<Column, Cell>, name: string)

  /** A raw row as it enters the groups, if it names a company. */
  function NormalizeOf(library: Library): Raw -> Option<NamedRow> {
    (raw: Raw) => NamedOrNone(library, raw)
  }

  function NamedOrNone(library: Library, raw: Raw): Option<NamedRow> {
    var row := NormalizeRow(library, raw.cells, raw.name);
    NormalizedIsNormal(library, raw.cells, raw.name);
    if Truthy(row[CompanyName]) then Some(row) else None
  }

  /** The normalized rows that name a company, in order. */
  function Kept(library: Library, raws: seq<Raw>): seq<NamedRow> {
    KeptOf(raws, NormalizeOf(library))
  }

  /** dedupe_company_rows */
  function Deduped(library: Library, raws: seq<Raw>): seq<NamedRow> {
    SortedBy(SortNameOf(library), Grouped(KeyOf(library), MergeOf(library), Kept(library, raws)))
  }

  function AsRaw(rows: seq<NamedRow>): (raws: seq<Raw>)
    ensures |raws| == |rows|
  {
    seq(|rows|, i requires 0 <= i < |rows| => Raw(rows[i], ""))
  }

  lemma {:induction false} KeptOfRows(library: Library, rows: seq<NamedRow>)
    ensures Kept(library, AsRaw(rows)) == rows
    decreases |rows|
  {
    if rows != [] {
      var front, last := rows[..|rows| - 1], rows[|rows| - 1];
      assert AsRaw(rows)[..|rows| - 1] == AsRaw(front);
      KeptOfRows(library, front);
      NormalIsStable(library, last);
      assert rows == front + [last];
    }
  }

  lemma PermutationKeepsKeysDistinct<T>(key: T -> string, a: seq<T>, b: seq<T>)
    requires DistinctKeys(key, a) && multiset(a) == multiset(b)
    ensures DistinctKeys(key, b)
  {
    forall i, j | 0 <= i < j < |b| ensures key(b[i]) != key(b[j]) {
      assert b[i] in multiset(b) && b[j] in multiset(b);
      assert b[i] in a && b[j] in a;
      var x :| 0 <= x < |a| && a[x] == b[i];
      var y :| 0 <= y < |a| && a[y] == b[j];
      if x == y {
        RepeatedTwice(b, i, j);
        assert multiset(a)[a[x]] >= 2;
        var u, v := TwoPlaces(a, a[x]);
        assert false;
      }
    }
  }

  lemma RepeatedTwice<T>(s: seq<T>, i: nat, j: nat)
    requires i < j < |s| && s[i] == s[j]
    ensures multiset(s)[s[i]] >= 2
  {
    assert s == s[..j] + [s[j]] + s[j + 1..];
    assert s[i] in s[..j];
  }

  lemma {:induction false} TwoPlaces<T>(s: seq<T>, x: T) returns (i: nat, j: nat)
    requires multiset(s)[x] >= 2
    ensures i < j < |s| && s[i] == x && s[j] == x
    decreases |s|
  {
    var front, last := s[..|s| - 1], s[|s| - 1];
    assert s == front + [last];
    if last == x {
      assert x in multiset(front);
      i :| 0 <= i < |front| && front[i] == x;
      j := |s| - 1;
    } else {
      i, j := TwoPlaces(front, x);
    }
  }

  /** One row per company, sorted by name, each absorbing its input rows. */
  lemma DedupedIsSound(library: Library, raws: seq<Raw>)
    requires library.Valid()
    ensures DistinctKeys(KeyOf(library), Deduped(library, raws))
    ensures IsSorted(SortNameOf(library), Deduped(library, raws))
    ensures forall row :: row in Kept(library, raws) ==>
      exists better :: better in Deduped(library, raws) && Absorbs(library, better, row)
  {
    var key, merge, absorbs := KeyOf(library), MergeOf(library), AbsorbsOf(library);
    var kept := Kept(library, raws);
    var groups := Grouped(key, merge, kept);
    LawsHold(library);
    GroupedAbsorbs(key, merge, absorbs, kept);
    SortedByIsSorted(SortNameOf(library), groups);
    PermutationKeepsKeysDistinct(key, groups, Deduped(library, raws));
    forall row | row in kept
      ensures exists better :: better in Deduped(library, raws) && Absorbs(library, better, row)
    {
      var k :| 0 <= k < |kept| && kept[k] == row;
      var j :| 0 <= j < |groups| && absorbs(groups[j], kept[k]);
      assert groups[j] in multiset(groups);
      assert groups[j] in Deduped(library, raws);
    }
  }

  /** No company is made up. */
  lemma DedupedInventsNothing(library: Library, raws: seq<Raw>, row: NamedRow)
    requires library.Valid() && row in Deduped(library, raws)
    ensures exists source :: source in Kept(library, raws) && KeyOf(library)(source) == KeyOf(library)(row)
  {
    var kept := Kept(library, raws);
    LawsHold(library);
    SortedGroupsStemFromRows(KeyOf(library), MergeOf(library), AbsorbsOf(library), SortNameOf(library), kept, row);
    var k :| 0 <= k < |kept| && KeyOf(library)(kept[k]) == KeyOf(library)(row);
    assert kept[k] in kept;
  }

  /** Companies of one name keep the order in which they first appear. */
  lemma DedupedIsStable(library: Library, raws: seq<Raw>, name: string)
    ensures WithName(SortNameOf(library), Deduped(library, raws), name) ==
      WithName(SortNameOf(library), Grouped(KeyOf(library), MergeOf(library), Kept(library, raws)), name)
  {
    SortedByIsStable(SortNameOf(library), Grouped(KeyOf(library), MergeOf(library), Kept(library, raws)), name);
  }

  /** Deduplicating twice changes nothing, not even the order. */
  lemma DedupeIsIdempotent(library: Library, raws: seq<Raw>)
    requires library.Valid()
    ensures Deduped(library, AsRaw(Deduped(library, raws))) == Deduped(library, raws)
  {
    var rows := Deduped(library, raws);
    DedupedIsSound(library, raws);
    KeptOfRows(library, rows);
    DistinctRowsStayApart(KeyOf(library), MergeOf(library), rows);
    SortedStays(SortNameOf(library), rows);
  }

  /** dedupe_company_rows, with its three counters. The merge of two rows is what MergeRows
      computes. */
  method DedupeCompanyRows(library: Library, raws: seq<Raw>)
    returns (rows: seq<NamedRow>, inputRows: nat, duplicateRows: nat)
    requires library.Valid()
    ensures rows == Deduped(library, raws)
    ensures inputRows == |Kept(library, raws)| && inputRows == |rows| + duplicateRows
  {
    var key, merge := KeyOf(library), MergeOf(library);
    LawsHold(library);
    var grouped, order;
    grouped, order, inputRows, duplicateRows := GroupRows(raws, NormalizeOf(library), key, merge, AbsorbsOf(library));
    ghost var groups := Grouped(key, merge, Kept(library, raws));
    rows := Values(key, grouped, order, groups);
    SortedByIsSorted(SortNameOf(library), groups);
    rows := SortedBy(SortNameOf(library), rows);
  }
}
