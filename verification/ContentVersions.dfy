/** Versioned campaign content: app/services/ai_content.py and
    app/repositories/campaign_content.py.

    The table is a sequence of rows and a row's id is its position; rows are only ever deleted
    softly. Which campaigns exist, and in which workspace, does not change. When several rows tie
    for the latest version, the database may return any of them: a call names the answer it got,
    and only right answers count. */
module ContentVersions {
  import opened Results

  datatype ContentStatus = Draft | Other(name: string)

  datatype Content = Content(
    workspace: nat, campaign: nat, title: string, contentType: string, language: Option<string>,
    status: ContentStatus, version: int, parent: Option<nat>, isCurrent: bool, deletedAt: Option<int>)

  datatype ContentInput = ContentInput(campaign: nat, title: string, contentType: string, language: Option<string>)

  /** One field of a partial update: not sent, or sent with a value that may be null. */
  datatype Field<T> = Unset | Set(value: T)

  datatype Patch = Patch(
    title: Field<Option<string>>, contentType: Field<Option<string>>,
    language: Field<Option<string>>, status: Field<Option<ContentStatus>>)

  datatype Error = NotFound | Conflict

  type Table = seq<Content>

  type Step = Result<Table, Error>

  // ----- Look-ups

  predicate LiveCurrent(c: Content) {
    c.isCurrent && c.deletedAt == None
  }

  predicate Matches(c: Content, campaign: nat, contentType: string, language: string) {
    LiveCurrent(c) && c.campaign == campaign && c.contentType == contentType && c.language == Some(language)
  }

  /** `answer` is what `get_latest_version` may return. */
  ghost predicate IsLatest(rows: Table, campaign: nat, contentType: string, language: string, answer: Option<nat>) {
    match answer
    case None => forall i | 0 <= i < |rows| :: !Matches(rows[i], campaign, contentType, language)
    case Some(k) =>
      && k < |rows| && Matches(rows[k], campaign, contentType, language)
      && forall i | 0 <= i < |rows| && Matches(rows[i], campaign, contentType, language) ::
           rows[i].version <= rows[k].version
  }

  function GetLatestVersion(rows: Table, campaign: nat, contentType: string, language: string): (answer: Option<nat>)
    ensures IsLatest(rows, campaign, contentType, language, answer)
  {
    if rows == [] then None
    else
      var k := |rows| - 1;
      var best := GetLatestVersion(rows[..k], campaign, contentType, language);
      if && Matches(rows[k], campaign, contentType, language)
         && (best.None? || rows[best.value].version <= rows[k].version)
      then Some(k)
      else best
  }

  /** `content_in.language or "en"` */
  function LookupLanguage(language: Option<string>): string {
    if language == None || language == Some("") then "en" else language.value
  }

  predicate ContentById(rows: Table, workspace: nat, campaign: nat, id: nat) {
    && id < |rows| && rows[id].deletedAt == None
    && rows[id].workspace == workspace && rows[id].campaign == campaign
  }

  // ----- The three operations

  /** The new row's `is_current` is the column default, true; its language is stored as given. */
  function NewRow(workspace: nat, input: ContentInput, version: int, parent: Option<nat>): Content {
    Content(workspace, input.campaign, input.title, input.contentType, input.language,
            Draft, version, parent, true, None)
  }

  function Create(campaigns: map<nat, nat>, rows: Table, workspace: nat, input: ContentInput, latest: Option<nat>): Step
    requires latest.Some? ==> latest.value < |rows|
  {
    if input.campaign !in campaigns || campaigns[input.campaign] != workspace then Err(NotFound)
    else
      match latest
      case None => Ok(rows + [NewRow(workspace, input, 1, None)])
      case Some(k) =>
        Ok(rows[k := rows[k].(isCurrent := false)] + [NewRow(workspace, input, rows[k].version + 1, latest)])
  }

  predicate NullsAColumn(p: Patch) {
    p.title == Set(None) || p.contentType == Set(None) || p.status == Set(None)
  }

  function Patched(c: Content, p: Patch): Content
    requires !NullsAColumn(p)
  {
    c.(title := if p.title.Set? then p.title.value.value else c.title,
       contentType := if p.contentType.Set? then p.contentType.value.value else c.contentType,
       language := if p.language.Set? then p.language.value else c.language,
       status := if p.status.Set? then p.status.value.value else c.status)
  }

  function Update(rows: Table, workspace: nat, campaign: nat, id: nat, p: Patch): Step {
    if !ContentById(rows, workspace, campaign, id) then Err(NotFound)
    else if NullsAColumn(p) then Err(Conflict)
    else Ok(rows[id := Patched(rows[id], p)])
  }

  function Delete(rows: Table, workspace: nat, campaign: nat, id: nat, now: int): Step {
    if !ContentById(rows, workspace, campaign, id) then Err(NotFound)
    else Ok(rows[id := rows[id].(deletedAt := Some(now))])
  }

  class ContentService {
    const campaigns: map<nat, nat>
    var rows: Table

    constructor (campaigns: map<nat, nat>)
      ensures this.campaigns == campaigns && rows == []
    {
      this.campaigns := campaigns;
      rows := [];
    }

    method CreateContent(workspace: nat, input: ContentInput) returns (r: Result<Content, Error>)
      modifies this`rows
      ensures var language := LookupLanguage(input.language);
              var latest := GetLatestVersion(old(rows), input.campaign, input.contentType, language);
              match Create(campaigns, old(rows), workspace, input, latest)
              case Err(e) => r == Err(e) && rows == old(rows)
              case Ok(table) => rows == table && table != [] && r == Ok(table[|table| - 1])
    {
      if input.campaign !in campaigns || campaigns[input.campaign] != workspace {
        return Err(NotFound);
      }
      var latest := GetLatestVersion(rows, input.campaign, input.contentType, LookupLanguage(input.language));
      var version, parent := 1, None;
      if latest.Some? {
        version, parent := rows[latest.value].version + 1, latest;
        rows := rows[latest.value := rows[latest.value].(isCurrent := false)];
      }
      var row := NewRow(workspace, input, version, parent);
      rows := rows + [row];
      return Ok(row);
    }

    method UpdateContent(workspace: nat, campaign: nat, id: nat, p: Patch) returns (r: Result<Content, Error>)
      modifies this`rows
      ensures match Update(old(rows), workspace, campaign, id, p)
              case Err(e) => r == Err(e) && rows == old(rows)
              case Ok(table) => rows == table && id < |table| && r == Ok(table[id])
    {
      if !ContentById(rows, workspace, campaign, id) {
        return Err(NotFound);
      }
      if NullsAColumn(p) {
        return Err(Conflict);
      }
      rows := rows[id := Patched(rows[id], p)];
      return Ok(rows[id]);
    }

    method DeleteContent(workspace: nat, campaign: nat, id: nat, now: int) returns (r: Result<Content, Error>)
      modifies this`rows
      ensures match Delete(old(rows), workspace, campaign, id, now)
              case Err(e) => r == Err(e) && rows == old(rows)
              case Ok(table) => rows == table && id < |table| && r == Ok(table[id])
    {
      if !ContentById(rows, workspace, campaign, id) {
        return Err(NotFound);
      }
      rows := rows[id := rows[id].(deletedAt := Some(now))];
      return Ok(rows[id]);
    }
  }

  // ----- Runs

  datatype Call =
    | CallCreate(workspace: nat, input: ContentInput, latest: Option<nat>)
    | CallUpdate(workspace: nat, campaign: nat, id: nat, patch: Patch)
    | CallDelete(workspace: nat, campaign: nat, id: nat, now: int)

  ghost function Next(campaigns: map<nat, nat>, rows: Table, c: Call): Table {
    var s: Step :=
      match c
      case CallCreate(workspace, input, latest) =>
        if IsLatest(rows, input.campaign, input.contentType, LookupLanguage(input.language), latest)
        then Create(campaigns, rows, workspace, input, latest)
        else Ok(rows)
      case CallUpdate(workspace, campaign, id, patch) => Update(rows, workspace, campaign, id, patch)
      case CallDelete(workspace, campaign, id, now) => Delete(rows, workspace, campaign, id, now);
    if s.Ok? then s.value else rows
  }

  ghost function Reached(campaigns: map<nat, nat>, calls: seq<Call>): Table {
    if calls == [] then []
    else Next(campaigns, Reached(campaigns, calls[..|calls| - 1]), calls[|calls| - 1])
  }

  /** The same request, whatever the database answered to its look-up. */
  predicate SameRequest(c: Call, d: Call) {
    if c.CallCreate? && d.CallCreate? then c.workspace == d.workspace && c.input == d.input else c == d
  }

  /** One request, and the call it was: a create with the answer that its look-up got. */
  method Perform(service: ContentService, requested: Call) returns (ghost call: Call)
    modifies service
    ensures SameRequest(call, requested) && service.rows == Next(service.campaigns, old(service.rows), call)
  {
    call := requested;
    match requested {
      case CallCreate(workspace, input, _) =>
        var language := LookupLanguage(input.language);
        call := CallCreate(workspace, input,
                           GetLatestVersion(service.rows, input.campaign, input.contentType, language));
        var r := service.CreateContent(workspace, input);
      case CallUpdate(workspace, campaign, id, patch) =>
        var r := service.UpdateContent(workspace, campaign, id, patch);
      case CallDelete(workspace, campaign, id, now) =>
        var r := service.DeleteContent(workspace, campaign, id, now);
    }
  }

  /** Any requests, made one after another to a service that starts empty, leave the table of the run
      theorems, for the answers its look-ups got. */
  method PerformAll(campaigns: map<nat, nat>, requested: seq<Call>)
    returns (service: ContentService, ghost calls: seq<Call>)
    ensures fresh(service) && service.rows == Reached(campaigns, calls)
    ensures |calls| == |requested| && forall i | 0 <= i < |calls| :: SameRequest(calls[i], requested[i])
  {
    service := new ContentService(campaigns);
    calls := [];
    for n := 0 to |requested|
      invariant fresh(service) && service.campaigns == campaigns && service.rows == Reached(campaigns, calls)
      invariant |calls| == n && forall i | 0 <= i < n :: SameRequest(calls[i], requested[i])
    {
      ghost var call := Perform(service, requested[n]);
      assert (calls + [call])[..n] == calls;
      calls := calls + [call];
    }
  }

  // ----- What one request does

  /** A create appends a draft with the fields that were sent, current and live; it retires the row that
      was the latest and changes no other. */
  lemma CreateStoresInput(
    campaigns: map<nat, nat>, rows: Table, workspace: nat, input: ContentInput, latest: Option<nat>, k: nat)
    requires latest.Some? ==> latest.value < |rows|
    requires Create(campaigns, rows, workspace, input, latest).Ok?
    ensures var after, n := Create(campaigns, rows, workspace, input, latest).value, |rows|;
            && |after| == n + 1
            && after[n].workspace == workspace && after[n].campaign == input.campaign && after[n].title == input.title
            && after[n].contentType == input.contentType && after[n].language == input.language
            && after[n].status == Draft && LiveCurrent(after[n]) && after[n].parent == latest
            && after[n].version == (if latest.Some? then rows[latest.value].version + 1 else 1)
            && (k < n && latest != Some(k) ==> after[k] == rows[k])
            && (k < n && latest == Some(k) ==> after[k] == rows[k].(isCurrent := false))
  {
  }

  /** A request finds a campaign or a row only in its own workspace. */
  lemma RequestsFindExactly(
    campaigns: map<nat, nat>, rows: Table, workspace: nat, input: ContentInput, latest: Option<nat>, campaign: nat,
    id: nat, p: Patch, now: int)
    requires latest.Some? ==> latest.value < |rows|
    ensures Create(campaigns, rows, workspace, input, latest).Ok?
       <==> input.campaign in campaigns && campaigns[input.campaign] == workspace
    ensures Delete(rows, workspace, campaign, id, now).Ok?
       <==> && id < |rows| && rows[id].deletedAt == None
            && rows[id].workspace == workspace && rows[id].campaign == campaign
    ensures Update(rows, workspace, campaign, id, p).Ok?
       <==> && id < |rows| && rows[id].deletedAt == None
            && rows[id].workspace == workspace && rows[id].campaign == campaign
            && p.title != Set(None) && p.contentType != Set(None) && p.status != Set(None)
    ensures Create(campaigns, rows, workspace, input, latest) != Err(Conflict)
    ensures Delete(rows, workspace, campaign, id, now) != Err(Conflict)
    ensures Update(rows, workspace, campaign, id, p) == Err(NotFound) <==> !ContentById(rows, workspace, campaign, id)
  {
  }

  /** An update writes the fields that were sent, a null language included, and leaves the rest. */
  lemma UpdateWritesFields(rows: Table, workspace: nat, campaign: nat, id: nat, p: Patch, k: nat)
    requires Update(rows, workspace, campaign, id, p).Ok?
    ensures var after := Update(rows, workspace, campaign, id, p).value;
            && |after| == |rows| && (k < |rows| && k != id ==> after[k] == rows[k])
            && (p.title.Set? ==> Some(after[id].title) == p.title.value)
            && (p.title.Unset? ==> after[id].title == rows[id].title)
            && (p.contentType.Set? ==> Some(after[id].contentType) == p.contentType.value)
            && (p.contentType.Unset? ==> after[id].contentType == rows[id].contentType)
            && (p.language.Set? ==> after[id].language == p.language.value)
            && (p.language.Unset? ==> after[id].language == rows[id].language)
            && (p.status.Set? ==> Some(after[id].status) == p.status.value)
            && (p.status.Unset? ==> after[id].status == rows[id].status)
            && after[id].version == rows[id].version && after[id].parent == rows[id].parent
            && after[id].isCurrent == rows[id].isCurrent && after[id].deletedAt == None
            && after[id].workspace == workspace && after[id].campaign == campaign
  {
  }

  /** A deleted row keeps its place and its fields, and no request or look-up finds it again. */
  lemma DeletedIsGone(
    rows: Table, workspace: nat, campaign: nat, id: nat, now: int, p: Patch, contentType: string, language: string,
    answer: Option<nat>)
    requires Delete(rows, workspace, campaign, id, now).Ok?
    ensures var after := Delete(rows, workspace, campaign, id, now).value;
            && after == rows[id := rows[id].(deletedAt := Some(now))]
            && Delete(after, workspace, campaign, id, now) == Err(NotFound)
            && Update(after, workspace, campaign, id, p) == Err(NotFound)
            && (IsLatest(after, campaign, contentType, language, answer) ==> answer != Some(id))
  {
  }

  // ----- Version chains

  /** A first version has no parent; any other one has an earlier row of its campaign, one
      version below and no longer current, for parent. */
  predicate LinkedRow(rows: Table, k: nat)
    requires k < |rows|
  {
    match rows[k].parent
    case None => rows[k].version == 1
    case Some(p) =>
      && p < k && rows[p].version >= 1 && rows[k].version == rows[p].version + 1
      && !rows[p].isCurrent && rows[p].campaign == rows[k].campaign
  }

  predicate Siblings(a: Content, b: Content) {
    a.parent.Some? && a.parent == b.parent
  }

  ghost predicate Linked(rows: Table) {
    && (forall k | 0 <= k < |rows| :: LinkedRow(rows, k))
    && (forall i, j | 0 <= i < j < |rows| :: !Siblings(rows[i], rows[j]))
  }

  /** A change to one row that keeps version, parent and campaign and revives nothing. */
  lemma RowUpdateKeepsLinks(rows: Table, id: nat, c: Content)
    requires Linked(rows) && id < |rows|
    requires c.version == rows[id].version && c.parent == rows[id].parent && c.campaign == rows[id].campaign
    requires c.isCurrent ==> rows[id].isCurrent
    ensures Linked(rows[id := c])
  {
    var after := rows[id := c];
    forall k | 0 <= k < |after| ensures LinkedRow(after, k) {
      assert LinkedRow(rows, k);
    }
    forall i, j | 0 <= i < j < |after| ensures !Siblings(after[i], after[j]) {
      assert !Siblings(rows[i], rows[j]);
    }
  }

  lemma AppendKeepsLinks(rows: Table, c: Content)
    requires Linked(rows) && LinkedRow(rows + [c], |rows|)
    requires forall i | 0 <= i < |rows| :: !Siblings(rows[i], c)
    ensures Linked(rows + [c])
  {
    var after := rows + [c];
    forall k | 0 <= k < |rows| ensures LinkedRow(after, k) {
      assert LinkedRow(rows, k);
    }
    forall i, j | 0 <= i < j < |after| ensures !Siblings(after[i], after[j]) {
      assert j < |rows| ==> !Siblings(rows[i], rows[j]);
    }
  }

  lemma CallKeepsLinks(campaigns: map<nat, nat>, rows: Table, c: Call)
    requires Linked(rows)
    ensures Linked(Next(campaigns, rows, c))
  {
    match c {
      case CallCreate(workspace, input, latest) =>
        if Next(campaigns, rows, c) != rows {
          CreateKeepsLinks(rows, workspace, input, latest);
        }
      case CallUpdate(workspace, campaign, id, patch) =>
        if Next(campaigns, rows, c) != rows {
          RowUpdateKeepsLinks(rows, id, Patched(rows[id], patch));
        }
      case CallDelete(workspace, campaign, id, now) =>
        if Next(campaigns, rows, c) != rows {
          RowUpdateKeepsLinks(rows, id, rows[id].(deletedAt := Some(now)));
        }
    }
  }

  lemma CreateKeepsLinks(rows: Table, workspace: nat, input: ContentInput, latest: Option<nat>)
    requires Linked(rows)
    requires IsLatest(rows, input.campaign, input.contentType, LookupLanguage(input.language), latest)
    ensures latest.None? ==> Linked(rows + [NewRow(workspace, input, 1, None)])
    ensures latest.Some? ==>
              var k := latest.value;
              Linked(rows[k := rows[k].(isCurrent := false)] + [NewRow(workspace, input, rows[k].version + 1, latest)])
  {
    match latest {
      case None => AppendKeepsLinks(rows, NewRow(workspace, input, 1, None));
      case Some(k) =>
        var retired := rows[k := rows[k].(isCurrent := false)];
        RowUpdateKeepsLinks(rows, k, rows[k].(isCurrent := false));
        assert LinkedRow(rows, k);
        forall i | 0 <= i < |rows| ensures rows[i].parent != Some(k) {
          assert LinkedRow(rows, i);
        }
        AppendKeepsLinks(retired, NewRow(workspace, input, rows[k].version + 1, latest));
    }
  }

  /** Main result: in every run, with any languages and any updates, the table is linked. */
  lemma {:induction false} TableStaysLinked(campaigns: map<nat, nat>, calls: seq<Call>)
    ensures Linked(Reached(campaigns, calls))
  {
    if calls != [] {
      TableStaysLinked(campaigns, calls[..|calls| - 1]);
      CallKeepsLinks(campaigns, Reached(campaigns, calls[..|calls| - 1]), calls[|calls| - 1]);
    }
  }

  /** The ancestors of a row, oldest first, and the row itself. */
  function Chain(rows: Table, k: nat): seq<nat>
    requires k < |rows| && forall i | 0 <= i < |rows| :: LinkedRow(rows, i)
    decreases k
  {
    match rows[k].parent
    case None => [k]
    case Some(p) => assert LinkedRow(rows, k); Chain(rows, p) + [k]
  }

  /** The chain of a row has exactly as many rows as its version says: versions 1, 2, 3, ... */
  lemma {:induction false} ChainCountsVersions(rows: Table, k: nat)
    requires Linked(rows) && k < |rows|
    ensures var chain := Chain(rows, k);
            && |chain| == rows[k].version && chain[|chain| - 1] == k
            && (forall i | 0 <= i < |chain| :: chain[i] < |rows| && rows[chain[i]].version == i + 1)
            && (forall i | 0 < i < |chain| :: rows[chain[i]].parent == Some(chain[i - 1]))
    decreases k
  {
    assert LinkedRow(rows, k);
    if rows[k].parent.Some? {
      ChainCountsVersions(rows, rows[k].parent.value);
    }
  }

  ghost predicate Descent(rows: Table, chain: seq<nat>) {
    && (forall i | 0 <= i < |chain| :: chain[i] < |rows|)
    && (forall i | 0 < i < |chain| :: rows[chain[i]].parent == Some(chain[i - 1]))
  }

  lemma ChainPosition(rows: Table, k: nat, x: nat)
    requires Linked(rows) && k < |rows| && x in Chain(rows, k)
    ensures Descent(rows, Chain(rows, k)) && |Chain(rows, k)| == rows[k].version
    ensures x < |rows| && 1 <= rows[x].version <= rows[k].version && Chain(rows, k)[rows[x].version - 1] == x
  {
    ChainCountsVersions(rows, k);
  }

  /** Two rows with a common ancestor lie on one line: the shorter chain begins the longer. */
  lemma ChainsNeverFork(rows: Table, a: nat, b: nat, x: nat)
    requires Linked(rows) && a < |rows| && b < |rows| && rows[a].version <= rows[b].version
    requires x in Chain(rows, a) && x in Chain(rows, b)
    ensures Chain(rows, a) <= Chain(rows, b)
  {
    ChainPosition(rows, a, x);
    ChainPosition(rows, b, x);
    DescentsAgree(rows, Chain(rows, a), Chain(rows, b), rows[x].version - 1);
  }

  lemma DescentsAgree(rows: Table, xs: seq<nat>, ys: seq<nat>, i: nat)
    requires Linked(rows) && Descent(rows, xs) && Descent(rows, ys)
    requires i < |xs| <= |ys| && xs[i] == ys[i]
    ensures xs <= ys
  {
    AgreeUpwards(rows, xs, ys, i, |xs| - 1);
    AgreeDownwards(rows, xs, ys, |xs| - 1);
    assert xs[..|xs|] == xs;
  }

  /** No row has two children, so two lines of descent that meet go on together ... */
  lemma {:induction false} AgreeUpwards(rows: Table, xs: seq<nat>, ys: seq<nat>, i: nat, j: nat)
    requires Linked(rows) && Descent(rows, xs) && Descent(rows, ys)
    requires i <= j < |xs| <= |ys| && xs[i] == ys[i]
    ensures xs[j] == ys[j]
    decreases j - i
  {
    if i < j {
      assert Siblings(rows[xs[i + 1]], rows[ys[i + 1]]);
      AgreeUpwards(rows, xs, ys, i + 1, j);
    }
  }

  /** ... and no row has two parents, so they came together too. */
  lemma {:induction false} AgreeDownwards(rows: Table, xs: seq<nat>, ys: seq<nat>, j: nat)
    requires Descent(rows, xs) && Descent(rows, ys)
    requires j < |xs| <= |ys| && xs[j] == ys[j]
    ensures xs[..j + 1] == ys[..j + 1]
    decreases j
  {
    if j > 0 {
      assert rows[xs[j]].parent == Some(xs[j - 1]) && rows[ys[j]].parent == Some(ys[j - 1]);
      AgreeDownwards(rows, xs, ys, j - 1);
    }
  }

  // ----- The current version

  predicate SameSlot(a: Content, b: Content) {
    a.campaign == b.campaign && a.contentType == b.contentType && a.language == b.language
  }

  predicate Clash(a: Content, b: Content) {
    LiveCurrent(a) && LiveCurrent(b) && SameSlot(a, b)
  }

  /** At most one live current row per campaign, content type and stored language. */
  ghost predicate OneCurrent(rows: Table) {
    forall i, j | 0 <= i < j < |rows| :: !Clash(rows[i], rows[j])
  }

  lemma LatestIsTheCurrentOne(rows: Table, k: nat, answer: Option<nat>)
    requires OneCurrent(rows) && k < |rows| && LiveCurrent(rows[k]) && rows[k].language.Some?
    requires IsLatest(rows, rows[k].campaign, rows[k].contentType, rows[k].language.value, answer)
    ensures answer == Some(k)
  {
    assert Matches(rows[k], rows[k].campaign, rows[k].contentType, rows[k].language.value);
    if answer.Some? {
      assert Clash(rows[k], rows[answer.value]) && Clash(rows[answer.value], rows[k]);
    }
  }

  /** Exactly when a create keeps the current version unique: the language is a non-empty
      string, or no live current row has been stored under the same null or empty language. */
  lemma CreateKeepsOneCurrentExactly(
    campaigns: map<nat, nat>, rows: Table, workspace: nat, input: ContentInput, latest: Option<nat>)
    requires OneCurrent(rows)
    requires IsLatest(rows, input.campaign, input.contentType, LookupLanguage(input.language), latest)
    requires Create(campaigns, rows, workspace, input, latest).Ok?
    ensures OneCurrent(Create(campaigns, rows, workspace, input, latest).value)
       <==> || (input.language.Some? && input.language.value != "")
            || forall i | 0 <= i < |rows| :: !Clash(rows[i], NewRow(workspace, input, 1, None))
  {
    var after := Create(campaigns, rows, workspace, input, latest).value;
    var n, row := |rows|, NewRow(workspace, input, 1, None);
    if (input.language.Some? && input.language.value != "") || forall i | 0 <= i < n :: !Clash(rows[i], row) {
      forall i, j | 0 <= i < j < |after| ensures !Clash(after[i], after[j]) {
        if j < n {
          assert !Clash(rows[i], rows[j]);
        } else if Clash(rows[i], row) {
          LatestIsTheCurrentOne(rows, i, latest);
        }
      }
    } else {
      var i :| 0 <= i < n && Clash(rows[i], row);
      assert Clash(after[i], after[n]);
    }
  }

  /** A version that was created with a language is what the next look-up finds. */
  lemma CreatedIsLatest(
    campaigns: map<nat, nat>, rows: Table, workspace: nat, input: ContentInput, latest: Option<nat>,
    answer: Option<nat>)
    requires OneCurrent(rows) && input.language.Some? && input.language.value != ""
    requires IsLatest(rows, input.campaign, input.contentType, input.language.value, latest)
    requires Create(campaigns, rows, workspace, input, latest).Ok?
    requires IsLatest(Create(campaigns, rows, workspace, input, latest).value, input.campaign, input.contentType,
                      input.language.value, answer)
    ensures answer == Some(|rows|)
  {
    var after := Create(campaigns, rows, workspace, input, latest).value;
    CreateKeepsOneCurrentExactly(campaigns, rows, workspace, input, latest);
    LatestIsTheCurrentOne(after, |rows|, answer);
  }

  /** Exactly when an update does: the row is not current, or its new slot is free. */
  lemma UpdateKeepsOneCurrentExactly(rows: Table, workspace: nat, campaign: nat, id: nat, p: Patch)
    requires OneCurrent(rows) && Update(rows, workspace, campaign, id, p).Ok?
    ensures OneCurrent(Update(rows, workspace, campaign, id, p).value)
       <==> !rows[id].isCurrent || forall i | 0 <= i < |rows| && i != id :: !Clash(rows[i], Patched(rows[id], p))
  {
    var after := Update(rows, workspace, campaign, id, p).value;
    if !rows[id].isCurrent || forall i | 0 <= i < |rows| && i != id :: !Clash(rows[i], Patched(rows[id], p)) {
      forall i, j | 0 <= i < j < |after| ensures !Clash(after[i], after[j]) {
        assert !Clash(rows[i], rows[j]);
      }
    } else {
      var i :| 0 <= i < |rows| && i != id && Clash(rows[i], Patched(rows[id], p));
      assert i < id ==> Clash(after[i], after[id]);
      assert id < i ==> Clash(after[id], after[i]);
    }
  }

  /** A create with a language, a delete, or an update that leaves type and language alone. */
  predicate Tidy(c: Call) {
    match c
    case CallCreate(_, input, _) => input.language.Some? && input.language.value != ""
    case CallUpdate(_, _, _, patch) => patch.contentType == Unset && patch.language == Unset
    case CallDelete(_, _, _, _) => true
  }

  lemma TidyCallKeepsOneCurrent(campaigns: map<nat, nat>, rows: Table, c: Call)
    requires OneCurrent(rows) && Tidy(c)
    ensures OneCurrent(Next(campaigns, rows, c))
  {
    var after := Next(campaigns, rows, c);
    if after != rows {
      match c {
        case CallCreate(workspace, input, latest) =>
          CreateKeepsOneCurrentExactly(campaigns, rows, workspace, input, latest);
        case _ =>
          forall i, j | 0 <= i < j < |after| ensures !Clash(after[i], after[j]) {
            assert !Clash(rows[i], rows[j]);
          }
      }
    }
  }

  /** Main result: tidy runs keep one current version per slot, and the look-up finds it. */
  lemma {:induction false} CurrentVersionStaysUnique(campaigns: map<nat, nat>, calls: seq<Call>)
    requires forall i | 0 <= i < |calls| :: Tidy(calls[i])
    ensures OneCurrent(Reached(campaigns, calls))
  {
    if calls != [] {
      CurrentVersionStaysUnique(campaigns, calls[..|calls| - 1]);
      TidyCallKeepsOneCurrent(campaigns, Reached(campaigns, calls[..|calls| - 1]), calls[|calls| - 1]);
    }
  }

  /** The call stores a second live current row in a slot: a create without a language where a row is
      stored under the same null or empty one, or an update that moves a current row to a taken slot. */
  ghost predicate Forks(campaigns: map<nat, nat>, rows: Table, c: Call) {
    match c
    case CallCreate(workspace, input, latest) =>
      && IsLatest(rows, input.campaign, input.contentType, LookupLanguage(input.language), latest)
      && input.campaign in campaigns && campaigns[input.campaign] == workspace
      && (input.language == None || input.language == Some(""))
      && exists i | 0 <= i < |rows| :: Clash(rows[i], NewRow(workspace, input, 1, None))
    case CallUpdate(workspace, campaign, id, patch) =>
      && ContentById(rows, workspace, campaign, id) && !NullsAColumn(patch) && rows[id].isCurrent
      && exists i | 0 <= i < |rows| && i != id :: Clash(rows[i], Patched(rows[id], patch))
    case CallDelete(_, _, _, _) => false
  }

  lemma CallKeepsOneCurrentExactly(campaigns: map<nat, nat>, rows: Table, c: Call)
    requires OneCurrent(rows)
    ensures OneCurrent(Next(campaigns, rows, c)) <==> !Forks(campaigns, rows, c)
  {
    match c
    case CallCreate(workspace, input, latest) =>
      if && IsLatest(rows, input.campaign, input.contentType, LookupLanguage(input.language), latest)
         && Create(campaigns, rows, workspace, input, latest).Ok? {
        CreateKeepsOneCurrentExactly(campaigns, rows, workspace, input, latest);
      }
    case CallUpdate(workspace, campaign, id, patch) =>
      if Update(rows, workspace, campaign, id, patch).Ok? {
        UpdateKeepsOneCurrentExactly(rows, workspace, campaign, id, patch);
      }
    case CallDelete(_, _, _, _) => TidyCallKeepsOneCurrent(campaigns, rows, c);
  }

  ghost predicate OneCurrentThroughout(campaigns: map<nat, nat>, calls: seq<Call>) {
    forall n: nat | n <= |calls| :: OneCurrent(Reached(campaigns, calls[..n]))
  }

  ghost predicate NoCallForks(campaigns: map<nat, nat>, calls: seq<Call>) {
    forall n: nat | n < |calls| :: !Forks(campaigns, Reached(campaigns, calls[..n]), calls[n])
  }

  lemma NthCall(campaigns: map<nat, nat>, calls: seq<Call>, n: nat)
    requires n < |calls| && OneCurrent(Reached(campaigns, calls[..n]))
    ensures OneCurrent(Reached(campaigns, calls[..n + 1]))
       <==> !Forks(campaigns, Reached(campaigns, calls[..n]), calls[n])
  {
    assert calls[..n + 1][..n] == calls[..n];
    CallKeepsOneCurrentExactly(campaigns, Reached(campaigns, calls[..n]), calls[n]);
  }

  lemma {:induction false} OneCurrentUnlessForked(campaigns: map<nat, nat>, calls: seq<Call>, n: nat)
    requires NoCallForks(campaigns, calls) && n <= |calls|
    ensures OneCurrent(Reached(campaigns, calls[..n]))
  {
    if n > 0 {
      OneCurrentUnlessForked(campaigns, calls, n - 1);
      NthCall(campaigns, calls, n - 1);
    }
  }

  /** Main result: each slot has one live current row at every point of a run if and only if no call
      of the run forks. */
  lemma OneCurrentThroughoutExactly(campaigns: map<nat, nat>, calls: seq<Call>)
    ensures OneCurrentThroughout(campaigns, calls) <==> NoCallForks(campaigns, calls)
  {
    if NoCallForks(campaigns, calls) {
      forall n: nat | n <= |calls| ensures OneCurrent(Reached(campaigns, calls[..n])) {
        OneCurrentUnlessForked(campaigns, calls, n);
      }
    }
    if OneCurrentThroughout(campaigns, calls) {
      forall n: nat | n < |calls| ensures !Forks(campaigns, Reached(campaigns, calls[..n]), calls[n]) {
        assert OneCurrent(Reached(campaigns, calls[..n])) && OneCurrent(Reached(campaigns, calls[..n + 1]));
        NthCall(campaigns, calls, n);
      }
    }
  }

  /** Two creates without a language leave two current first versions. */
  lemma NullLanguageForksVersions(campaigns: map<nat, nat>, input: ContentInput)
    requires input.campaign in campaigns && input.language == None
    ensures var c := CallCreate(campaigns[input.campaign], input, None);
            var row := NewRow(campaigns[input.campaign], input, 1, None);
            Reached(campaigns, [c, c]) == [row, row] && !OneCurrent(Reached(campaigns, [c, c]))
  {
    var c := CallCreate(campaigns[input.campaign], input, None);
    var row := NewRow(campaigns[input.campaign], input, 1, None);
    assert Reached(campaigns, [c]) == [row] by {
      assert [c][..0] == [];
    }
    assert [c, c][..1] == [c];
    var table := Reached(campaigns, [c, c]);
    assert Clash(table[0], table[1]);
  }
}
