/** The upserts of app/integrations/sync/engine.py over the social accounts table.

    The table is a sequence of rows in order of creation, so the newest row that a query sorted
    by `created_at` descending returns first is the last one. Encryption is a parameter: `enc`
    takes the text and a nonce, as Fernet draws one per call, and only decryption is known to
    undo it. The table and the connection are what the job's session holds. */
module AccountSync {
  import opened Results
  import opened GoogleNames

  datatype Provider = Meta | Instagram | LinkedIn | Twitter | Google

  datatype Row = Row(
    workspace: nat, provider: Provider, accountId: string, name: string,
    accessToken: string, refreshToken: Option<string>, expiresAt: Option<int>,
    isActive: bool, deletedAt: Option<int>)

  type Table = seq<Row>

  datatype Vault = Vault(enc: (string, nat) -> string, dec: string -> string)

  ghost predicate Lawful(v: Vault) {
    forall text, nonce :: v.dec(v.enc(text, nonce)) == text
  }

  // ----- What the table means

  /** A social account with its secrets in the clear. */
  datatype Account = Account(
    name: string, accessToken: string, refreshToken: Option<string>, expiresAt: Option<int>, isActive: bool)

  function Opened(v: Vault, secret: Option<string>): Option<string> {
    if secret.Some? then Some(v.dec(secret.value)) else None
  }

  function Decode(v: Vault, r: Row): Account {
    Account(r.name, v.dec(r.accessToken), Opened(v, r.refreshToken), r.expiresAt, r.isActive)
  }

  predicate InScope(r: Row, workspace: nat, provider: Provider) {
    r.workspace == workspace && r.provider == provider && r.deletedAt == None
  }

  /** The accounts of one workspace and provider: for each external id, its newest live row. */
  function View(v: Vault, rows: Table, workspace: nat, provider: Provider): map<string, Account> {
    if rows == [] then map[]
    else
      var k := |rows| - 1;
      var before := View(v, rows[..k], workspace, provider);
      if InScope(rows[k], workspace, provider) then before[rows[k].accountId := Decode(v, rows[k])] else before
  }

  /** What one fetched item says. Only some providers report refresh token and expiry. */
  datatype Item = Item(accountId: string, name: string, accessToken: string, expiry: Option<Expiry>)

  datatype Expiry = Expiry(refreshToken: Option<string>, expiresAt: Option<int>)

  /** The account after the item has been written over what was there. */
  function Merged(previous: Option<Account>, i: Item): Account {
    match (i.expiry, previous)
    case (Some(x), _) => Account(i.name, i.accessToken, x.refreshToken, x.expiresAt, true)
    case (None, Some(a)) => Account(i.name, i.accessToken, a.refreshToken, a.expiresAt, true)
    case (None, None) => Account(i.name, i.accessToken, None, None, true)
  }

  function Get(m: map<string, Account>, key: string): Option<Account> {
    if key in m then Some(m[key]) else None
  }

  function Override(m: map<string, Account>, items: seq<Item>): map<string, Account> {
    if items == [] then m
    else
      var before, i := Override(m, items[..|items| - 1]), items[|items| - 1];
      before[i.accountId := Merged(Get(before, i.accountId), i)]
  }

  // ----- The override, without the order of its steps

  /** The items of one provider either all carry refresh token and expiry, or none does. */
  ghost predicate Uniform(items: seq<Item>, full: bool) {
    forall i | 0 <= i < |items| :: items[i].expiry.Some? == full
  }

  function LastFor(items: seq<Item>, key: string): (r: Option<nat>)
    ensures r.Some? ==> r.value < |items| && items[r.value].accountId == key
    ensures r.Some? ==> forall j | r.value < j < |items| :: items[j].accountId != key
    ensures r.None? ==> forall j | 0 <= j < |items| :: items[j].accountId != key
  {
    if items == [] then None
    else if items[|items| - 1].accountId == key then Some(|items| - 1)
    else LastFor(items[..|items| - 1], key)
  }

  /** The last item for a key wins; keys that no item mentions keep what they had. */
  lemma {:induction false} LastItemWins(m: map<string, Account>, items: seq<Item>, full: bool, key: string)
    requires Uniform(items, full)
    ensures Get(Override(m, items), key)
         == match LastFor(items, key) { case None => Get(m, key) case Some(k) => Some(Merged(Get(m, key), items[k])) }
    decreases |items|
  {
    if items != [] {
      LastItemWins(m, items[..|items| - 1], full, key);
    }
  }

  lemma SameEverywhere(m: map<string, Account>, n: map<string, Account>)
    requires forall key :: Get(m, key) == Get(n, key)
    ensures m == n
  {
    forall key ensures (key in m <==> key in n) && (key in m ==> m[key] == n[key]) {
      assert Get(m, key) == Get(n, key);
    }
  }

  /** Overriding a second time with the same items changes nothing. */
  lemma OverrideTwice(m: map<string, Account>, items: seq<Item>, full: bool)
    requires Uniform(items, full)
    ensures Override(Override(m, items), items) == Override(m, items)
  {
    var once := Override(m, items);
    forall key ensures Get(Override(once, items), key) == Get(once, key) {
      LastItemWins(m, items, full, key);
      LastItemWins(once, items, full, key);
    }
    SameEverywhere(Override(once, items), once);
  }

  lemma {:induction false} OverrideConcat(m: map<string, Account>, xs: seq<Item>, ys: seq<Item>)
    ensures Override(m, xs + ys) == Override(Override(m, xs), ys)
    decreases |ys|
  {
    if ys == [] {
      assert xs + ys == xs;
    } else {
      var k := |ys| - 1;
      OverrideConcat(m, xs, ys[..k]);
      assert (xs + ys)[..|xs| + k] == xs + ys[..k];
    }
  }

  // ----- One upsert

  predicate Holds(r: Row, workspace: nat, provider: Provider, key: string) {
    InScope(r, workspace, provider) && r.accountId == key
  }

  /** `get_all(filters=...)[0]`: the newest live row for the key. */
  function Find(rows: Table, workspace: nat, provider: Provider, key: string): (r: Option<nat>)
    ensures r.Some? ==> r.value < |rows| && Holds(rows[r.value], workspace, provider, key)
    ensures r.Some? ==> forall i | r.value < i < |rows| :: !Holds(rows[i], workspace, provider, key)
    ensures r.None? ==> forall i | 0 <= i < |rows| :: !Holds(rows[i], workspace, provider, key)
  {
    if rows == [] then None
    else
      var k := |rows| - 1;
      if Holds(rows[k], workspace, provider, key) then Some(k)
      else Find(rows[..k], workspace, provider, key)
  }

  /** An item with its secrets encrypted. */
  datatype Sealed = Sealed(accountId: string, name: string, accessToken: string, expiry: Option<Expiry>)

  predicate Seals(v: Vault, s: Sealed, i: Item) {
    && s.accountId == i.accountId && s.name == i.name && v.dec(s.accessToken) == i.accessToken
    && s.expiry.Some? == i.expiry.Some?
    && (s.expiry.Some? ==>
          && s.expiry.value.expiresAt == i.expiry.value.expiresAt
          && Opened(v, s.expiry.value.refreshToken) == i.expiry.value.refreshToken)
  }

  function Updated(r: Row, s: Sealed): Row {
    var named := r.(name := s.name, accessToken := s.accessToken, isActive := true);
    match s.expiry
    case None => named
    case Some(x) => named.(refreshToken := x.refreshToken, expiresAt := x.expiresAt)
  }

  function Created(workspace: nat, provider: Provider, s: Sealed): Row {
    Updated(Row(workspace, provider, s.accountId, "", "", None, None, true, None), s)
  }

  function Upsert(rows: Table, workspace: nat, provider: Provider, s: Sealed): Table {
    match Find(rows, workspace, provider, s.accountId)
    case Some(k) => rows[k := Updated(rows[k], s)]
    case None => rows + [Created(workspace, provider, s)]
  }

  /** The view sees a change to the newest row of a key as a change to that key. */
  lemma {:induction false} ViewOfUpdate(v: Vault, rows: Table, workspace: nat, provider: Provider, k: nat, r: Row)
    requires Find(rows, workspace, provider, r.accountId) == Some(k)
    requires InScope(r, workspace, provider)
    ensures View(v, rows[k := r], workspace, provider)
         == View(v, rows, workspace, provider)[r.accountId := Decode(v, r)]
    decreases |rows|
  {
    var n := |rows| - 1;
    var after := rows[k := r];
    if k < n {
      assert after[..n] == rows[..n][k := r];
      ViewOfUpdate(v, rows[..n], workspace, provider, k, r);
    } else {
      assert after[..n] == rows[..n];
    }
  }

  lemma {:induction false} ViewOfFind(v: Vault, rows: Table, workspace: nat, provider: Provider, key: string)
    ensures var f := Find(rows, workspace, provider, key);
            Get(View(v, rows, workspace, provider), key) == if f.Some? then Some(Decode(v, rows[f.value])) else None
    decreases |rows|
  {
    if rows != [] {
      ViewOfFind(v, rows[..|rows| - 1], workspace, provider, key);
    }
  }

  lemma SealedRowsDecode(v: Vault, r: Row, workspace: nat, provider: Provider, s: Sealed, i: Item)
    requires Seals(v, s, i)
    ensures Decode(v, Updated(r, s)) == Merged(Some(Decode(v, r)), i)
    ensures Decode(v, Created(workspace, provider, s)) == Merged(None, i)
  {
  }

  lemma UpsertOverrides(v: Vault, rows: Table, workspace: nat, provider: Provider, s: Sealed, i: Item)
    requires Seals(v, s, i)
    ensures var m := View(v, rows, workspace, provider);
            View(v, Upsert(rows, workspace, provider, s), workspace, provider)
            == m[i.accountId := Merged(Get(m, i.accountId), i)]
  {
    ViewOfFind(v, rows, workspace, provider, s.accountId);
    match Find(rows, workspace, provider, s.accountId) {
      case Some(k) =>
        SealedRowsDecode(v, rows[k], workspace, provider, s, i);
        ViewOfUpdate(v, rows, workspace, provider, k, Updated(rows[k], s));
      case None =>
        SealedRowsDecode(v, Created(workspace, provider, s), workspace, provider, s, i);
        assert Upsert(rows, workspace, provider, s)[..|rows|] == rows;
    }
  }

  // ----- What upserts leave alone

  /** Old rows keep their place, key and deletion mark; only rows in scope change otherwise; new
      rows are in scope. */
  ghost predicate OnlyInScope(rows: Table, after: Table, workspace: nat, provider: Provider) {
    && |rows| <= |after|
    && (forall i | 0 <= i < |rows| ::
          SameIdentity(rows[i], after[i]) && (!InScope(rows[i], workspace, provider) ==> after[i] == rows[i]))
    && (forall i | |rows| <= i < |after| :: InScope(after[i], workspace, provider))
  }

  predicate SameIdentity(r: Row, s: Row) {
    r.workspace == s.workspace && r.provider == s.provider && r.accountId == s.accountId && r.deletedAt == s.deletedAt
  }

  predicate SameKey(r: Row, s: Row) {
    && r.deletedAt == None && s.deletedAt == None
    && r.workspace == s.workspace && r.provider == s.provider && r.accountId == s.accountId
  }

  ghost predicate UniqueKeys(rows: Table) {
    forall i, j | 0 <= i < j < |rows| :: !SameKey(rows[i], rows[j])
  }

  lemma UpsertFrame(rows: Table, workspace: nat, provider: Provider, s: Sealed)
    ensures OnlyInScope(rows, Upsert(rows, workspace, provider, s), workspace, provider)
    ensures UniqueKeys(rows) ==> UniqueKeys(Upsert(rows, workspace, provider, s))
  {
    var after := Upsert(rows, workspace, provider, s);
    if UniqueKeys(rows) {
      forall i, j | 0 <= i < j < |after| ensures !SameKey(after[i], after[j]) {
        assert j < |rows| ==> !SameKey(rows[i], rows[j]);
      }
    }
  }

  lemma FrameComposes(a: Table, b: Table, c: Table, workspace: nat, provider: Provider)
    requires OnlyInScope(a, b, workspace, provider) && OnlyInScope(b, c, workspace, provider)
    ensures OnlyInScope(a, c, workspace, provider)
  {
    forall i | 0 <= i < |a|
      ensures SameIdentity(a[i], c[i]) && (!InScope(a[i], workspace, provider) ==> c[i] == a[i])
    {
      assert SameIdentity(a[i], b[i]) && SameIdentity(b[i], c[i]);
    }
    forall i | |a| <= i < |c| ensures InScope(c[i], workspace, provider) {
      if i < |b| {
        assert SameIdentity(b[i], c[i]);
      }
    }
  }

  /** Everything a batch of upserts promises. */
  ghost predicate Overridden(
    v: Vault, rows: Table, after: Table, workspace: nat, provider: Provider, items: seq<Item>)
  {
    && View(v, after, workspace, provider) == Override(View(v, rows, workspace, provider), items)
    && OnlyInScope(rows, after, workspace, provider)
    && (UniqueKeys(rows) ==> UniqueKeys(after))
    && ((forall i | 0 <= i < |items| :: items[i].accountId in View(v, rows, workspace, provider)) ==> |after| == |rows|)
  }

  lemma NothingOverridden(v: Vault, rows: Table, workspace: nat, provider: Provider)
    ensures Overridden(v, rows, rows, workspace, provider, [])
  {
  }

  lemma {:induction false} OverrideKeepsKeys(m: map<string, Account>, items: seq<Item>)
    ensures forall key | key in m :: key in Override(m, items)
    ensures forall i | 0 <= i < |items| :: items[i].accountId in Override(m, items)
    decreases |items|
  {
    if items != [] {
      OverrideKeepsKeys(m, items[..|items| - 1]);
    }
  }

  lemma OneOverridden(v: Vault, rows: Table, workspace: nat, provider: Provider, s: Sealed, i: Item)
    requires Seals(v, s, i)
    ensures Overridden(v, rows, Upsert(rows, workspace, provider, s), workspace, provider, [i])
  {
    UpsertOverrides(v, rows, workspace, provider, s, i);
    UpsertFrame(rows, workspace, provider, s);
    ViewOfFind(v, rows, workspace, provider, i.accountId);
    var m := View(v, rows, workspace, provider);
    assert Override(m, [i]) == m[i.accountId := Merged(Get(m, i.accountId), i)] by {
      assert [i][..0] == [];
    }
    assert [i][0] == i;
  }

  lemma OverriddenConcat(
    v: Vault, a: Table, b: Table, c: Table, workspace: nat, provider: Provider, xs: seq<Item>, ys: seq<Item>)
    requires Overridden(v, a, b, workspace, provider, xs) && Overridden(v, b, c, workspace, provider, ys)
    ensures Overridden(v, a, c, workspace, provider, xs + ys)
  {
    var m, all := View(v, a, workspace, provider), xs + ys;
    OverrideConcat(m, xs, ys);
    FrameComposes(a, b, c, workspace, provider);
    OverrideKeepsKeys(m, xs);
    if forall k | 0 <= k < |all| :: all[k].accountId in m {
      assert forall k | 0 <= k < |xs| :: xs[k] == all[k];
      assert forall k | 0 <= k < |ys| :: ys[k] == all[|xs| + k];
    }
  }

  /** A second identical run creates no row and means the same, whatever nonces it draws. */
  lemma SecondRunAgrees(
    v: Vault, rows: Table, once: Table, twice: Table, workspace: nat, provider: Provider, items: seq<Item>, full: bool)
    requires Uniform(items, full)
    requires Overridden(v, rows, once, workspace, provider, items)
    requires Overridden(v, once, twice, workspace, provider, items)
    ensures |twice| == |once|
    ensures View(v, twice, workspace, provider) == View(v, once, workspace, provider)
  {
    OverrideTwice(View(v, rows, workspace, provider), items, full);
    OverrideKeepsKeys(View(v, rows, workspace, provider), items);
  }

  // ----- The job

  datatype Page = Page(id: Option<string>, name: Option<string>, accessToken: Option<string>)

  /** The items of the pages up to the first that raises: a page with a token needs id and name. */
  function PageItems(pages: seq<Page>): (seq<Item>, bool) {
    if pages == [] then ([], false)
    else
      var (items, raised) := PageItems(pages[..|pages| - 1]);
      var p := pages[|pages| - 1];
      if raised || p.accessToken == None || p.accessToken == Some("") then (items, raised)
      else if p.id.None? || p.name.None? then (items, true)
      else (items + [Item(p.id.value, p.name.value, p.accessToken.value, None)], false)
  }

  function LocationItem(accountId: string, l: Location, token: string, expiry: Expiry): Item {
    var name := if l.locationName == "" then "GBP Location" else l.locationName;
    Item(Key(accountId, l.locationId), name, token, Some(expiry))
  }

  function LocationItems(accountId: string, locations: seq<Location>, token: string, expiry: Expiry): seq<Item> {
    if locations == [] then []
    else
      var k := |locations| - 1;
      var before := LocationItems(accountId, locations[..k], token, expiry);
      if locations[k].locationId == "" then before else before + [LocationItem(accountId, locations[k], token, expiry)]
  }

  function BusinessItems(businesses: seq<BusinessAccount>, token: string, expiry: Expiry): seq<Item> {
    if businesses == [] then []
    else
      var k := |businesses| - 1;
      BusinessItems(businesses[..k], token, expiry)
      + LocationItems(businesses[k].accountId, businesses[k].locations, token, expiry)
  }

  lemma {:induction false} PageItemsAreUniform(pages: seq<Page>)
    ensures Uniform(PageItems(pages).0, false)
    decreases |pages|
  {
    if pages != [] {
      PageItemsAreUniform(pages[..|pages| - 1]);
    }
  }

  lemma {:induction false} BusinessItemsAreUniform(businesses: seq<BusinessAccount>, token: string, expiry: Expiry)
    ensures Uniform(BusinessItems(businesses, token, expiry), true)
    decreases |businesses|
  {
    if businesses != [] {
      var k := |businesses| - 1;
      BusinessItemsAreUniform(businesses[..k], token, expiry);
      LocationItemsAreUniform(businesses[k].accountId, businesses[k].locations, token, expiry);
    }
  }

  lemma {:induction false} LocationItemsAreUniform(
    accountId: string, locations: seq<Location>, token: string, expiry: Expiry)
    ensures Uniform(LocationItems(accountId, locations, token, expiry), true)
    decreases |locations|
  {
    if locations != [] {
      LocationItemsAreUniform(accountId, locations[..|locations| - 1], token, expiry);
    }
  }

  predicate Mentions(items: seq<Item>, key: string) {
    exists i | 0 <= i < |items| :: items[i].accountId == key
  }

  lemma MentionsConcat(xs: seq<Item>, ys: seq<Item>, key: string)
    requires Mentions(xs, key) || Mentions(ys, key)
    ensures Mentions(xs + ys, key)
  {
    if Mentions(xs, key) {
      var i :| 0 <= i < |xs| && xs[i].accountId == key;
      assert (xs + ys)[i].accountId == key;
    } else {
      var i :| 0 <= i < |ys| && ys[i].accountId == key;
      assert (xs + ys)[|xs| + i].accountId == key;
    }
  }

  lemma {:induction false} LocationsAreMentioned(
    accountId: string, locations: seq<Location>, token: string, expiry: Expiry, j: nat)
    requires j < |locations| && locations[j].locationId != ""
    ensures Mentions(LocationItems(accountId, locations, token, expiry), Key(accountId, locations[j].locationId))
    decreases |locations|
  {
    var k := |locations| - 1;
    var before := LocationItems(accountId, locations[..k], token, expiry);
    var last := LocationItem(accountId, locations[k], token, expiry);
    if j < k {
      LocationsAreMentioned(accountId, locations[..k], token, expiry, j);
      MentionsConcat(before, [last], Key(accountId, locations[j].locationId));
    } else {
      assert (before + [last])[|before|] == last;
    }
  }

  lemma {:induction false} BusinessesAreMentioned(
    businesses: seq<BusinessAccount>, token: string, expiry: Expiry, i: nat, key: string)
    requires i < |businesses|
    requires Mentions(LocationItems(businesses[i].accountId, businesses[i].locations, token, expiry), key)
    ensures Mentions(BusinessItems(businesses, token, expiry), key)
    decreases |businesses|
  {
    var k := |businesses| - 1;
    if i < k {
      BusinessesAreMentioned(businesses[..k], token, expiry, i, key);
    }
    MentionsConcat(BusinessItems(businesses[..k], token, expiry),
                   LocationItems(businesses[k].accountId, businesses[k].locations, token, expiry), key);
  }

  /** From the Google API to the table: every named location of every named account ends up as an
      account under its composite key, unless its name ends in a slash. */
  lemma EveryNamedLocationIsSynced(
    v: Vault, rows: Table, after: Table, workspace: nat, token: string, expiry: Expiry, accounts: seq<ApiAccount>,
    locationsOf: string -> Fetched<seq<ApiLocation>>, businesses: seq<BusinessAccount>, i: nat, j: nat)
    requires AccountsParsed(NamedAccounts(accounts), locationsOf, businesses)
    requires Overridden(v, rows, after, workspace, Google, BusinessItems(businesses, token, expiry))
    requires i < |NamedAccounts(accounts)| && locationsOf(NamedAccounts(accounts)[i].name).Ok?
    requires j < |NamedLocations(locationsOf(NamedAccounts(accounts)[i].name).value)|
    requires LastSegment(NamedLocations(locationsOf(NamedAccounts(accounts)[i].name).value)[j].name) != ""
    ensures var account := NamedAccounts(accounts)[i];
            var location := NamedLocations(locationsOf(account.name).value)[j];
            KeyOf(account.name, location.name) in View(v, after, workspace, Google)
  {
    var account, b := NamedAccounts(accounts)[i], businesses[i];
    assert AccountParsed(account, locationsOf, b);
    var location := NamedLocations(locationsOf(account.name).value)[j];
    assert b.locations[j] == Location(LastSegment(location.name), location.title);
    LocationsAreMentioned(b.accountId, b.locations, token, expiry, j);
    BusinessesAreMentioned(businesses, token, expiry, i, KeyOf(account.name, location.name));
    OverrideKeepsKeys(View(v, rows, workspace, Google), BusinessItems(businesses, token, expiry));
  }

  // ----- The job's parties

  datatype ConnectionStatus = Pending | Connected | Disconnected | Errored | Expired

  datatype Connection = Connection(
    status: ConnectionStatus, accessToken: Option<string>, refreshToken: Option<string>, expiresAt: Option<int>)

  predicate HasToken(c: Connection) {
    c.accessToken.Some? && c.accessToken.value != ""
  }

  function ExpiryOf(v: Vault, c: Connection): Expiry {
    Expiry(if c.refreshToken.Some? && c.refreshToken.value != "" then Some(v.dec(c.refreshToken.value)) else None,
           c.expiresAt)
  }

  /** The token handed to the connector; an empty one makes it raise. */
  function ConnectorToken(v: Vault, c: Connection): string {
    if HasToken(c) then v.dec(c.accessToken.value) else ""
  }

  /** An answer of the Graph API: whether its error is an OAuthException, and its body if that can
      be read. */
  datatype GraphReply<T> = NoAnswer | GraphReply(status: int, oauthException: bool, body: Option<T>)

  datatype GraphError = TokenRejected | OtherError

  function ReadGraph<T>(r: GraphReply<T>): Result<T, GraphError> {
    match r
    case NoAnswer => Err(OtherError)
    case GraphReply(status, oauthException, body) =>
      if status != 200 then
        Err(if (status == 400 || status == 401) && oauthException then TokenRejected else OtherError)
      else if body.None? then Err(OtherError)
      else Ok(body.value)
  }

  /** What the connector's schema demands of every page. */
  predicate ValidPage(p: Page) {
    p.id.Some? && p.name.Some? && p.accessToken.Some?
  }

  /** `perform_sync` of the Facebook connector. */
  function FetchPages(profile: GraphReply<()>, pages: GraphReply<seq<Page>>): Result<seq<Page>, GraphError> {
    match ReadGraph(profile)
    case Err(e) => Err(e)
    case Ok(_) =>
      match ReadGraph(pages)
      case Err(e) => Err(e)
      case Ok(list) => if forall i | 0 <= i < |list| :: ValidPage(list[i]) then Ok(list) else Err(OtherError)
  }

  /** The provider of the job, and what its API answers during it. */
  datatype Remote =
    | Facebook(profile: GraphReply<()>, pages: GraphReply<seq<Page>>)
    | GoogleBusiness(
        profiled: Fetched<()>, accounts: Fetched<seq<ApiAccount>>, locationsOf: string -> Fetched<seq<ApiLocation>>)

  function ProviderOf(remote: Remote): Provider {
    if remote.Facebook? then Meta else Google
  }

  predicate Rejects<T>(r: GraphReply<T>) {
    r.GraphReply? && (r.status == 400 || r.status == 401) && r.oauthException
  }

  /** The Google connector's error says that the token was refused. */
  predicate Refuses(e: SyncError) {
    e == AuthError || e == ApiError(401)
  }

  /** The first request that failed was answered that the token is no good: by the Graph API with 400
      or 401 and an OAuthException, by Google with an authorisation error. */
  ghost predicate TokenIsRejected(remote: Remote) {
    match remote
    case Facebook(profile, pages) =>
      Rejects(profile) || (ReadGraph(profile).Ok? && Rejects(pages))
    case GoogleBusiness(profiled, accounts, locationsOf) =>
      if profiled.Err? then Refuses(profiled.error)
      else if accounts.Err? then Refuses(accounts.error)
      else exists e :: Refuses(e) && FirstFailure(NamedAccounts(accounts.value), locationsOf, e)
  }

  datatype JobError = ConnectionLost | NoToken | OAuthToken | FetchError

  /** What the job has made of the table when the connection has a token. */
  ghost predicate Synchronised(
    v: Vault, rows: Table, after: Table, workspace: nat, token: string, expiry: Expiry, remote: Remote,
    error: Option<JobError>)
  {
    match remote
    case Facebook(profile, pages) =>
      (match FetchPages(profile, pages)
       case Err(_) => error == Some(if TokenIsRejected(remote) then OAuthToken else FetchError) && after == rows
       case Ok(list) => error == None && Overridden(v, rows, after, workspace, Meta, PageItems(list).0))
    case GoogleBusiness(profiled, accounts, locationsOf) =>
      if profiled.Err? || accounts.Err? then error == Some(FetchError) && after == rows
      else if error.Some? then
        && error == Some(FetchError) && after == rows
        && exists e :: FirstFailure(NamedAccounts(accounts.value), locationsOf, e)
      else
        exists businesses ::
          && AccountsParsed(NamedAccounts(accounts.value), locationsOf, businesses)
          && Overridden(v, rows, after, workspace, Google, BusinessItems(businesses, token, expiry))
  }

  lemma {:induction false} ValidPagesNeverRaise(pages: seq<Page>)
    requires forall i | 0 <= i < |pages| :: ValidPage(pages[i])
    ensures !PageItems(pages).1
    decreases |pages|
  {
    if pages != [] {
      ValidPagesNeverRaise(pages[..|pages| - 1]);
    }
  }

  lemma RejectionIsTokenRejected(profile: GraphReply<()>, pages: GraphReply<seq<Page>>)
    ensures FetchPages(profile, pages) == Err(TokenRejected) <==> TokenIsRejected(Facebook(profile, pages))
  {
  }

  /** A rejected token ends the job before it writes a row, with an error that only Facebook's
      connector makes an OAuthTokenError. */
  lemma {:induction false} RejectedJobFails(
    v: Vault, rows: Table, after: Table, workspace: nat, token: string, expiry: Expiry, remote: Remote,
    error: Option<JobError>)
    requires Synchronised(v, rows, after, workspace, token, expiry, remote, error) && TokenIsRejected(remote)
    ensures after == rows && error == Some(if remote.Facebook? then OAuthToken else FetchError)
  {
    match remote
    case Facebook(profile, pages) => RejectionIsTokenRejected(profile, pages);
    case GoogleBusiness(profiled, accounts, locationsOf) =>
      if profiled.Ok? && accounts.Ok? {
        var named := NamedAccounts(accounts.value);
        var e :| Refuses(e) && FirstFailure(named, locationsOf, e);
        forall p ensures !AccountsParsed(named, locationsOf, p) {
          FailureExcludesEntries(named, locationsOf, e, p);
        }
      }
  }

  // ----- What a successful job stores, in terms of the API's answers

  /** The newest live row for the key is active and, decrypted, says this. */
  ghost predicate Shows(
    v: Vault, rows: Table, workspace: nat, provider: Provider, key: string, name: string, token: string,
    refreshToken: Option<string>, expiresAt: Option<int>)
  {
    var f := Find(rows, workspace, provider, key);
    f.Some? && var r := rows[f.value];
               && r.isActive && r.name == name && v.dec(r.accessToken) == token
               && (r.refreshToken.Some? <==> refreshToken.Some?)
               && (r.refreshToken.Some? ==> v.dec(r.refreshToken.value) == refreshToken.value)
               && r.expiresAt == expiresAt
  }

  lemma {:induction false} AccountShows(
    v: Vault, rows: Table, workspace: nat, provider: Provider, key: string, a: Account)
    requires Get(View(v, rows, workspace, provider), key) == Some(a) && a.isActive
    ensures Shows(v, rows, workspace, provider, key, a.name, a.accessToken, a.refreshToken, a.expiresAt)
  {
    ViewOfFind(v, rows, workspace, provider, key);
  }

  /** The last page with this id and a token that is not empty. */
  function LastPage(pages: seq<Page>, key: string): (r: Option<nat>)
    ensures r.Some? ==> r.value < |pages| && HasPage(pages[r.value], key)
    ensures r.Some? ==> forall i | r.value < i < |pages| :: !HasPage(pages[i], key)
    ensures r.None? ==> forall i | 0 <= i < |pages| :: !HasPage(pages[i], key)
  {
    if pages == [] then None
    else if HasPage(pages[|pages| - 1], key) then Some(|pages| - 1)
    else LastPage(pages[..|pages| - 1], key)
  }

  predicate HasPage(p: Page, key: string) {
    p.id == Some(key) && p.accessToken.Some? && p.accessToken != Some("")
  }

  /** What a page makes of the account that was there: the refresh token and the expiry stay. */
  function FromPage(previous: Option<Account>, name: string, token: string): Account {
    match previous
    case None => Account(name, token, None, None, true)
    case Some(a) => Account(name, token, a.refreshToken, a.expiresAt, true)
  }

  lemma {:induction false} PagesOverride(m: map<string, Account>, pages: seq<Page>, key: string)
    requires forall i | 0 <= i < |pages| :: pages[i].id.Some? && pages[i].name.Some? && pages[i].accessToken.Some?
    ensures Get(Override(m, PageItems(pages).0), key)
         == match LastPage(pages, key)
            case None => Get(m, key)
            case Some(k) => Some(FromPage(Get(m, key), pages[k].name.value, pages[k].accessToken.value))
    decreases |pages|
  {
    if pages != [] {
      var before, p := pages[..|pages| - 1], pages[|pages| - 1];
      PagesOverride(m, before, key);
      ValidPagesNeverRaise(before);
      if p.accessToken != Some("") {
        var items := PageItems(before).0;
        var item := Item(p.id.value, p.name.value, p.accessToken.value, None);
        assert PageItems(pages).0 == items + [item];
        assert (items + [item])[..|items|] == items;
      }
    }
  }

  /** A location as the API lists it: its composite key, and the name to store. */
  datatype Entry = Entry(key: string, name: string)

  function EntriesOf(accountName: string, locations: seq<ApiLocation>): seq<Entry> {
    if locations == [] then []
    else
      var l := locations[|locations| - 1];
      EntriesOf(accountName, locations[..|locations| - 1])
      + (if l.name == "" || LastSegment(l.name) == "" then []
         else [Entry(KeyOf(accountName, l.name), if l.title == "" then "GBP Location" else l.title)])
  }

  /** All locations of all accounts, in the order the API gave them. */
  function Entries(accounts: seq<ApiAccount>, locationsOf: string -> Fetched<seq<ApiLocation>>): seq<Entry> {
    if accounts == [] then []
    else
      var a := accounts[|accounts| - 1];
      Entries(accounts[..|accounts| - 1], locationsOf)
      + (if a.name == "" || locationsOf(a.name).Err? then [] else EntriesOf(a.name, locationsOf(a.name).value))
  }

  function LastEntry(entries: seq<Entry>, key: string): (r: Option<nat>)
    ensures r.Some? ==> r.value < |entries| && entries[r.value].key == key
    ensures r.Some? ==> forall i | r.value < i < |entries| :: entries[i].key != key
    ensures r.None? ==> forall i | 0 <= i < |entries| :: entries[i].key != key
  {
    if entries == [] then None
    else if entries[|entries| - 1].key == key then Some(|entries| - 1)
    else LastEntry(entries[..|entries| - 1], key)
  }

  function EntryItems(entries: seq<Entry>, token: string, expiry: Expiry): (items: seq<Item>)
    ensures |items| == |entries|
  {
    if entries == [] then []
    else
      var e := entries[|entries| - 1];
      EntryItems(entries[..|entries| - 1], token, expiry) + [Item(e.key, e.name, token, Some(expiry))]
  }

  lemma OneEntryMore(entries: seq<Entry>, e: Entry, token: string, expiry: Expiry)
    ensures EntryItems(entries + [e], token, expiry)
         == EntryItems(entries, token, expiry) + [Item(e.key, e.name, token, Some(expiry))]
  {
    assert (entries + [e])[..|entries|] == entries;
  }

  lemma {:induction false} EntryItemsConcat(xs: seq<Entry>, ys: seq<Entry>, token: string, expiry: Expiry)
    ensures EntryItems(xs + ys, token, expiry) == EntryItems(xs, token, expiry) + EntryItems(ys, token, expiry)
    decreases |ys|
  {
    if ys == [] {
      assert xs + ys == xs;
    } else {
      assert (xs + ys)[..|xs + ys| - 1] == xs + ys[..|ys| - 1];
      EntryItemsConcat(xs, ys[..|ys| - 1], token, expiry);
    }
  }

  lemma {:induction false} LocationItemsAreEntries(
    accountName: string, locations: seq<ApiLocation>, parsed: seq<Location>, token: string, expiry: Expiry)
    requires LocationsParsed(locations, parsed)
    ensures LocationItems(LastSegment(accountName), parsed, token, expiry)
         == EntryItems(EntriesOf(accountName, locations), token, expiry)
    decreases |locations|
  {
    if locations != [] {
      var before, l := locations[..|locations| - 1], locations[|locations| - 1];
      if l.name == "" {
        LocationItemsAreEntries(accountName, before, parsed, token, expiry);
        assert EntriesOf(accountName, locations) == EntriesOf(accountName, before);
      } else {
        var rest := parsed[..|parsed| - 1];
        LocationItemsAreEntries(accountName, before, rest, token, expiry);
        assert parsed[|parsed| - 1] == Location(LastSegment(l.name), l.title);
        if LastSegment(l.name) == "" {
          assert EntriesOf(accountName, locations) == EntriesOf(accountName, before);
        } else {
          var e := Entry(KeyOf(accountName, l.name), if l.title == "" then "GBP Location" else l.title);
          OneEntryMore(EntriesOf(accountName, before), e, token, expiry);
        }
      }
    }
  }

  lemma {:induction false} BusinessItemsAreEntries(
    accounts: seq<ApiAccount>, locationsOf: string -> Fetched<seq<ApiLocation>>, businesses: seq<BusinessAccount>,
    token: string, expiry: Expiry)
    requires AccountsParsed(NamedAccounts(accounts), locationsOf, businesses)
    ensures BusinessItems(businesses, token, expiry) == EntryItems(Entries(accounts, locationsOf), token, expiry)
    decreases |accounts|
  {
    if accounts != [] {
      var before, a := accounts[..|accounts| - 1], accounts[|accounts| - 1];
      if a.name == "" {
        BusinessItemsAreEntries(before, locationsOf, businesses, token, expiry);
        assert Entries(accounts, locationsOf) == Entries(before, locationsOf);
      } else {
        var rest, b := businesses[..|businesses| - 1], businesses[|businesses| - 1];
        assert AccountParsed(a, locationsOf, b);
        assert forall i | 0 <= i < |rest| :: AccountParsed(NamedAccounts(accounts)[i], locationsOf, businesses[i]);
        BusinessItemsAreEntries(before, locationsOf, rest, token, expiry);
        LocationItemsAreEntries(a.name, locationsOf(a.name).value, b.locations, token, expiry);
        EntryItemsConcat(Entries(before, locationsOf), EntriesOf(a.name, locationsOf(a.name).value), token, expiry);
      }
    }
  }

  lemma {:induction false} EntriesOverride(
    m: map<string, Account>, entries: seq<Entry>, token: string, expiry: Expiry, key: string)
    ensures Get(Override(m, EntryItems(entries, token, expiry)), key)
         == match LastEntry(entries, key)
            case None => Get(m, key)
            case Some(k) => Some(Account(entries[k].name, token, expiry.refreshToken, expiry.expiresAt, true))
    decreases |entries|
  {
    if entries != [] {
      EntriesOverride(m, entries[..|entries| - 1], token, expiry, key);
      var items := EntryItems(entries, token, expiry);
      assert items[..|items| - 1] == EntryItems(entries[..|entries| - 1], token, expiry);
    }
  }

  /** Both requests of Facebook's connector came back with a list of usable pages. */
  predicate PagesArrived(profile: GraphReply<()>, pages: GraphReply<seq<Page>>) {
    && profile.GraphReply? && profile.status == 200 && profile.body.Some?
    && pages.GraphReply? && pages.status == 200 && pages.body.Some?
    && forall i | 0 <= i < |pages.body.value| ::
         pages.body.value[i].id.Some? && pages.body.value[i].name.Some? && pages.body.value[i].accessToken.Some?
  }

  predicate LocationsArrived(
    profiled: Fetched<()>, accounts: Fetched<seq<ApiAccount>>, locationsOf: string -> Fetched<seq<ApiLocation>>)
  {
    && profiled.Ok? && accounts.Ok?
    && forall i | 0 <= i < |accounts.value| && accounts.value[i].name != "" :: locationsOf(accounts.value[i].name).Ok?
  }

  predicate Arrived(remote: Remote) {
    match remote
    case Facebook(profile, pages) => PagesArrived(profile, pages)
    case GoogleBusiness(profiled, accounts, locationsOf) => LocationsArrived(profiled, accounts, locationsOf)
  }

  /** The account under one key after the job: what the last page or location with that key says, and
      what was there before if none does. */
  ghost predicate Stored(
    v: Vault, rows: Table, after: Table, workspace: nat, token: string, expiry: Expiry, remote: Remote, key: string)
    requires Arrived(remote)
  {
    var before := Get(View(v, rows, workspace, ProviderOf(remote)), key);
    match remote
    case Facebook(_, pages) =>
      (match LastPage(pages.body.value, key)
       case None => Get(View(v, after, workspace, Meta), key) == before
       case Some(k) =>
         var p := pages.body.value[k];
         Shows(v, after, workspace, Meta, key, p.name.value, p.accessToken.value,
               if before.Some? then before.value.refreshToken else None,
               if before.Some? then before.value.expiresAt else None))
    case GoogleBusiness(_, accounts, locationsOf) =>
      var entries := Entries(accounts.value, locationsOf);
      match LastEntry(entries, key)
      case None => Get(View(v, after, workspace, Google), key) == before
      case Some(k) =>
        Shows(v, after, workspace, Google, key, entries[k].name, token, expiry.refreshToken, expiry.expiresAt)
  }

  lemma {:induction false} FirstFailureIsNoArrival(
    accounts: seq<ApiAccount>, locationsOf: string -> Fetched<seq<ApiLocation>>, e: SyncError)
    requires FirstFailure(NamedAccounts(accounts), locationsOf, e)
    ensures exists i | 0 <= i < |accounts| :: accounts[i].name != "" && locationsOf(accounts[i].name).Err?
  {
    NamedAccountsExactly(accounts);
    var at := NamedAt(AccountNames(accounts));
    var i :| 0 <= i < |at| && locationsOf(NamedAccounts(accounts)[i].name) == Err(e);
    assert AccountNames(accounts)[at[i]] == accounts[at[i]].name;
  }

  lemma {:induction false} ParsedIsArrival(
    accounts: seq<ApiAccount>, locationsOf: string -> Fetched<seq<ApiLocation>>, businesses: seq<BusinessAccount>,
    k: nat)
    requires AccountsParsed(NamedAccounts(accounts), locationsOf, businesses)
    requires k < |accounts| && accounts[k].name != ""
    ensures locationsOf(accounts[k].name).Ok?
  {
    NamedAccountsExactly(accounts);
    var at := NamedAt(AccountNames(accounts));
    assert AccountNames(accounts)[k] != "";
    var i :| 0 <= i < |at| && at[i] == k;
    assert AccountParsed(NamedAccounts(accounts)[i], locationsOf, businesses[i]);
  }

  /** The job ends without an error if and only if everything it asked for arrived. */
  lemma {:induction false} JobSucceedsExactly(
    v: Vault, rows: Table, after: Table, workspace: nat, token: string, expiry: Expiry, remote: Remote,
    error: Option<JobError>)
    requires Synchronised(v, rows, after, workspace, token, expiry, remote, error)
    ensures error == None <==> Arrived(remote)
  {
    match remote
    case Facebook(_, _) =>
    case GoogleBusiness(profiled, accounts, locationsOf) =>
      if profiled.Ok? && accounts.Ok? {
        if error.Some? {
          var e :| FirstFailure(NamedAccounts(accounts.value), locationsOf, e);
          FirstFailureIsNoArrival(accounts.value, locationsOf, e);
        } else {
          var businesses :| AccountsParsed(NamedAccounts(accounts.value), locationsOf, businesses);
          forall k | 0 <= k < |accounts.value| && accounts.value[k].name != ""
            ensures locationsOf(accounts.value[k].name).Ok?
          {
            ParsedIsArrival(accounts.value, locationsOf, businesses, k);
          }
        }
      }
  }

  /** The refresh token of the connection, decrypted; an empty one counts as none. */
  ghost predicate RefreshTokenIs(v: Vault, c: Connection, refreshToken: Option<string>) {
    if c.refreshToken == None || c.refreshToken == Some("") then refreshToken == None
    else refreshToken == Some(v.dec(c.refreshToken.value))
  }

  /** Main result, from the API's answers to the rows: after a job whose fetches all arrived, under every
      key there is the account that the last page or location with that key describes, a location's
      with the tokens and the expiry of the connection. */
  lemma {:induction false} JobStores(
    v: Vault, rows: Table, after: Table, workspace: nat, c: Connection, refreshToken: Option<string>, remote: Remote,
    error: Option<JobError>, key: string)
    requires c.accessToken.Some? && c.accessToken.value != "" && RefreshTokenIs(v, c, refreshToken)
    requires Synchronised(v, rows, after, workspace, ConnectorToken(v, c), ExpiryOf(v, c), remote, error)
    requires Arrived(remote)
    ensures error == None
    ensures Stored(v, rows, after, workspace, v.dec(c.accessToken.value), Expiry(refreshToken, c.expiresAt),
                   remote, key)
  {
    var token, expiry := ConnectorToken(v, c), ExpiryOf(v, c);
    JobSucceedsExactly(v, rows, after, workspace, token, expiry, remote, error);
    match remote
    case Facebook(_, pages) => PagesAreStored(v, rows, after, workspace, pages.body.value, key);
    case GoogleBusiness(_, accounts, locationsOf) =>
      var businesses :| && AccountsParsed(NamedAccounts(accounts.value), locationsOf, businesses)
                        && Overridden(v, rows, after, workspace, Google, BusinessItems(businesses, token, expiry));
      BusinessItemsAreEntries(accounts.value, locationsOf, businesses, token, expiry);
      LocationsAreStored(v, rows, after, workspace, token, expiry, Entries(accounts.value, locationsOf), key);
  }

  lemma {:induction false} PagesAreStored(
    v: Vault, rows: Table, after: Table, workspace: nat, pages: seq<Page>, key: string)
    requires forall i | 0 <= i < |pages| :: pages[i].id.Some? && pages[i].name.Some? && pages[i].accessToken.Some?
    requires Overridden(v, rows, after, workspace, Meta, PageItems(pages).0)
    ensures var before, k := Get(View(v, rows, workspace, Meta), key), LastPage(pages, key);
            if k.None? then Get(View(v, after, workspace, Meta), key) == before
            else Shows(v, after, workspace, Meta, key, pages[k.value].name.value, pages[k.value].accessToken.value,
                       if before.Some? then before.value.refreshToken else None,
                       if before.Some? then before.value.expiresAt else None)
  {
    var m, k := View(v, rows, workspace, Meta), LastPage(pages, key);
    PagesOverride(m, pages, key);
    if k.Some? {
      var a := FromPage(Get(m, key), pages[k.value].name.value, pages[k.value].accessToken.value);
      AccountShows(v, after, workspace, Meta, key, a);
    }
  }

  lemma {:induction false} LocationsAreStored(
    v: Vault, rows: Table, after: Table, workspace: nat, token: string, expiry: Expiry, entries: seq<Entry>,
    key: string)
    requires Overridden(v, rows, after, workspace, Google, EntryItems(entries, token, expiry))
    ensures match LastEntry(entries, key)
            case None => Get(View(v, after, workspace, Google), key) == Get(View(v, rows, workspace, Google), key)
            case Some(k) =>
              Shows(v, after, workspace, Google, key, entries[k].name, token, expiry.refreshToken, expiry.expiresAt)
  {
    var k := LastEntry(entries, key);
    EntriesOverride(View(v, rows, workspace, Google), entries, token, expiry, key);
    if k.Some? {
      var a := Account(entries[k.value].name, token, expiry.refreshToken, expiry.expiresAt, true);
      AccountShows(v, after, workspace, Google, key, a);
    }
  }

  /** Whatever its outcome, the job leaves rows of other workspaces and providers and deleted rows alone,
      and keys that are unique stay unique. */
  lemma {:induction false} JobStaysInScope(
    v: Vault, rows: Table, after: Table, workspace: nat, token: string, expiry: Expiry, remote: Remote,
    error: Option<JobError>)
    requires Synchronised(v, rows, after, workspace, token, expiry, remote, error)
    ensures OnlyInScope(rows, after, workspace, ProviderOf(remote))
    ensures UniqueKeys(rows) ==> UniqueKeys(after)
  {
    if after == rows {
      NothingOverridden(v, rows, workspace, ProviderOf(remote));
    }
  }

  /** A second run against the same answers ends the same way, creates no row and leaves every
      account the same after decryption, whatever nonces it draws. */
  lemma SecondJobAgrees(
    v: Vault, rows: Table, once: Table, twice: Table, workspace: nat, token: string, expiry: Expiry, remote: Remote,
    first: Option<JobError>, second: Option<JobError>)
    requires Synchronised(v, rows, once, workspace, token, expiry, remote, first)
    requires Synchronised(v, once, twice, workspace, token, expiry, remote, second)
    ensures second == first
    ensures |twice| == |once|
    ensures View(v, twice, workspace, ProviderOf(remote)) == View(v, once, workspace, ProviderOf(remote))
  {
    match remote
    case Facebook(profile, pages) =>
      var fetched := FetchPages(profile, pages);
      if fetched.Ok? {
        PageItemsAreUniform(fetched.value);
        SecondRunAgrees(v, rows, once, twice, workspace, Meta, PageItems(fetched.value).0, false);
      }
    case GoogleBusiness(profiled, accounts, locationsOf) =>
      if profiled.Ok? && accounts.Ok? {
        SecondGoogleJobAgrees(v, rows, once, twice, workspace, token, expiry, remote, first, second);
      }
  }

  lemma SecondGoogleJobAgrees(
    v: Vault, rows: Table, once: Table, twice: Table, workspace: nat, token: string, expiry: Expiry, remote: Remote,
    first: Option<JobError>, second: Option<JobError>)
    requires remote.GoogleBusiness? && remote.profiled.Ok? && remote.accounts.Ok?
    requires Synchronised(v, rows, once, workspace, token, expiry, remote, first)
    requires Synchronised(v, once, twice, workspace, token, expiry, remote, second)
    ensures second == first
    ensures |twice| == |once| && View(v, twice, workspace, Google) == View(v, once, workspace, Google)
  {
    var named, locationsOf := NamedAccounts(remote.accounts.value), remote.locationsOf;
    if first.Some? {
      var e :| FirstFailure(named, locationsOf, e);
      forall p ensures !AccountsParsed(named, locationsOf, p) {
        FailureExcludesEntries(named, locationsOf, e, p);
      }
    } else {
      var p :| && AccountsParsed(named, locationsOf, p)
               && Overridden(v, rows, once, workspace, Google, BusinessItems(p, token, expiry));
      forall e | FirstFailure(named, locationsOf, e) ensures false {
        FailureExcludesEntries(named, locationsOf, e, p);
      }
      var q :| && AccountsParsed(named, locationsOf, q)
               && Overridden(v, once, twice, workspace, Google, BusinessItems(q, token, expiry));
      AccountsParsedOnce(named, locationsOf, p, q);
      BusinessItemsAreUniform(p, token, expiry);
      SecondRunAgrees(v, rows, once, twice, workspace, Google, BusinessItems(p, token, expiry), true);
    }
  }

  class SyncEngine {
    const vault: Vault
    var accounts: Table
    var nonce: nat
    var connection: Option<Connection>

    ghost predicate Valid() {
      Lawful(vault)
    }

    constructor (vault: Vault, accounts: Table, connection: Option<Connection>)
      requires Lawful(vault)
      ensures Valid() && this.vault == vault && this.accounts == accounts && this.connection == connection
    {
      this.vault := vault;
      this.accounts := accounts;
      this.nonce := 0;
      this.connection := connection;
    }

    method Encrypt(text: string) returns (secret: string)
      requires Valid()
      modifies this`nonce
      ensures vault.dec(secret) == text
    {
      secret := vault.enc(text, nonce);
      nonce := nonce + 1;
    }

    /** One upsert, extending what has been done since `start` by the item it seals. */
    method UpsertAccount(
      workspace: nat, provider: Provider, s: Sealed, ghost start: Table, ghost items: seq<Item>, ghost item: Item)
      requires Seals(vault, s, item) && Overridden(vault, start, accounts, workspace, provider, items)
      modifies this`accounts
      ensures accounts == Upsert(old(accounts), workspace, provider, s)
      ensures Overridden(vault, start, accounts, workspace, provider, items + [item])
    {
      OneOverridden(vault, accounts, workspace, provider, s, item);
      ghost var after := Upsert(accounts, workspace, provider, s);
      OverriddenConcat(vault, start, accounts, after, workspace, provider, items, [item]);
      var existing := Find(accounts, workspace, provider, s.accountId);
      if existing.Some? {
        accounts := accounts[existing.value := Updated(accounts[existing.value], s)];
      } else {
        accounts := accounts + [Created(workspace, provider, s)];
      }
    }

    /** The Facebook loop. */
    method SyncPages(workspace: nat, pages: seq<Page>) returns (raised: bool)
      requires Valid()
      modifies this`accounts, this`nonce
      ensures raised == PageItems(pages).1
      ensures Overridden(vault, old(accounts), accounts, workspace, Meta, PageItems(pages).0)
    {
      NothingOverridden(vault, accounts, workspace, Meta);
      ghost var items: seq<Item> := [];
      for i := 0 to |pages|
        invariant PageItems(pages[..i]) == (items, false)
        invariant Overridden(vault, old(accounts), accounts, workspace, Meta, items)
      {
        var p := pages[i];
        PageItemsStep(pages, i);
        if p.accessToken.None? || p.accessToken.value == "" {
          continue;
        }
        if p.id.None? || p.name.None? {
          PageItemsStop(pages, i);
          return true;
        }
        var token := Encrypt(p.accessToken.value);
        var s := Sealed(p.id.value, p.name.value, token, None);
        ghost var item := Item(p.id.value, p.name.value, p.accessToken.value, None);
        UpsertAccount(workspace, Meta, s, old(accounts), items, item);
        items := items + [item];
      }
      assert pages[..|pages|] == pages;
      return false;
    }

    /** The inner Google loop: the locations of one account. */
    method SyncLocations(
      workspace: nat, accountId: string, locations: seq<Location>, token: string, sealedExpiry: Expiry,
      ghost plain: string, ghost expiry: Expiry)
      requires vault.dec(token) == plain
      requires sealedExpiry.expiresAt == expiry.expiresAt
      requires Opened(vault, sealedExpiry.refreshToken) == expiry.refreshToken
      modifies this`accounts
      ensures Overridden(vault, old(accounts), accounts, workspace, Google,
                         LocationItems(accountId, locations, plain, expiry))
    {
      NothingOverridden(vault, accounts, workspace, Google);
      for j := 0 to |locations|
        invariant Overridden(vault, old(accounts), accounts, workspace, Google,
                             LocationItems(accountId, locations[..j], plain, expiry))
      {
        var l := locations[j];
        assert locations[..j + 1][..j] == locations[..j];
        if l.locationId == "" {
          continue;
        }
        var name := if l.locationName == "" then "GBP Location" else l.locationName;
        var s := Sealed(Key(accountId, l.locationId), name, token, Some(sealedExpiry));
        UpsertAccount(workspace, Google, s, old(accounts), LocationItems(accountId, locations[..j], plain, expiry),
                      LocationItem(accountId, l, plain, expiry));
      }
      assert locations[..|locations|] == locations;
    }

    /** The Google branch. The tokens are the connection's, re-encrypted once for all rows. */
    method SyncBusinesses(workspace: nat, businesses: seq<BusinessAccount>, c: Connection)
      requires Valid()
      modifies this`accounts, this`nonce
      ensures !HasToken(c) ==> accounts == old(accounts)
      ensures HasToken(c) ==>
                Overridden(vault, old(accounts), accounts, workspace, Google,
                           BusinessItems(businesses, vault.dec(c.accessToken.value), ExpiryOf(vault, c)))
    {
      if !HasToken(c) {
        return;
      }
      ghost var plain, expiry := vault.dec(c.accessToken.value), ExpiryOf(vault, c);
      var token := Encrypt(vault.dec(c.accessToken.value));
      var refresh := None;
      if c.refreshToken.Some? && c.refreshToken.value != "" {
        var r := Encrypt(vault.dec(c.refreshToken.value));
        refresh := Some(r);
      }
      NothingOverridden(vault, accounts, workspace, Google);
      for i := 0 to |businesses|
        invariant Overridden(vault, old(accounts), accounts, workspace, Google,
                             BusinessItems(businesses[..i], plain, expiry))
      {
        assert businesses[..i + 1][..i] == businesses[..i];
        var b := businesses[i];
        ghost var before := accounts;
        SyncLocations(workspace, b.accountId, b.locations, token, Expiry(refresh, c.expiresAt), plain, expiry);
        OverriddenConcat(vault, old(accounts), before, accounts, workspace, Google,
                         BusinessItems(businesses[..i], plain, expiry),
                         LocationItems(b.accountId, b.locations, plain, expiry));
      }
      assert businesses[..|businesses|] == businesses;
    }

    /** `execute_sync_job`. Only a rejected Facebook token writes to the connection, and only a
        full sync with a usable token writes to the table. */
    method ExecuteSyncJob(workspace: nat, syncType: string, remote: Remote) returns (error: Option<JobError>)
      requires Valid()
      modifies this`accounts, this`nonce, this`connection
      ensures connection == if old(Usable()) && syncType == "full" && TokenIsRejected(remote) && remote.Facebook?
                            then Some(old(connection).value.(status := Expired))
                            else old(connection)
      ensures !old(Usable()) ==>
                error == Some(if old(connection).None? then ConnectionLost else NoToken) && accounts == old(accounts)
      ensures old(Usable()) && syncType != "full" ==> error == None && accounts == old(accounts)
      ensures old(Usable()) && syncType == "full" ==>
                Synchronised(vault, old(accounts), accounts, workspace, ConnectorToken(vault, old(connection).value),
                             ExpiryOf(vault, old(connection).value), remote, error)
      ensures old(Usable()) && syncType == "full" && TokenIsRejected(remote) ==>
                old(connection).value.status != Expired ==> (connection.value.status == Expired <==> remote.Facebook?)
    {
      if connection.None? {
        return Some(ConnectionLost);
      }
      if ConnectorToken(vault, connection.value) == "" {
        return Some(NoToken);
      }
      match remote {
        case Facebook(profile, pages) =>
          if syncType != "full" {
            return None;
          }
          RejectionIsTokenRejected(profile, pages);
          match FetchPages(profile, pages) {
            case Err(TokenRejected) =>
              connection := Some(connection.value.(status := Expired));
              return Some(OAuthToken);
            case Err(OtherError) =>
              return Some(FetchError);
            case Ok(list) =>
              ValidPagesNeverRaise(list);
              var raised := SyncPages(workspace, list);
          }
        case GoogleBusiness(profiled, accounts, locationsOf) =>
          var fetched := PerformSync(syncType, profiled, accounts, locationsOf);
          match fetched {
            case Err(_) => return Some(FetchError);
            case Ok(Skipped) =>
            case Ok(Synced(businesses, _)) => SyncBusinesses(workspace, businesses, connection.value);
          }
      }
      return None;
    }

    /** There is a connection, and its access token is not empty. */
    predicate Usable()
      reads this
    {
      connection.Some? && ConnectorToken(vault, connection.value) != ""
    }

    /** The job run twice against the same answers: the second run ends like the first, creates no
        row and changes no account. */
    method ExecuteTwice(workspace: nat, syncType: string, remote: Remote)
      returns (first: Option<JobError>, second: Option<JobError>, ghost once: Table)
      requires Valid()
      modifies this`accounts, this`nonce, this`connection
      ensures old(Usable()) && syncType == "full" ==>
                Synchronised(vault, old(accounts), once, workspace, ConnectorToken(vault, old(connection).value),
                             ExpiryOf(vault, old(connection).value), remote, first)
      ensures second == first && |accounts| == |once|
      ensures View(vault, accounts, workspace, ProviderOf(remote)) == View(vault, once, workspace, ProviderOf(remote))
    {
      first := ExecuteSyncJob(workspace, syncType, remote);
      once := accounts;
      second := ExecuteSyncJob(workspace, syncType, remote);
      if old(Usable()) && syncType == "full" {
        var c := old(connection).value;
        SecondJobAgrees(vault, old(accounts), once, accounts, workspace, ConnectorToken(vault, c), ExpiryOf(vault, c),
                        remote, first, second);
      }
    }
  }

  /** A connected Google account whose token is refused stays CONNECTED. */
  method RejectedGoogleStaysConnected(
    vault: Vault, rows: Table, c: Connection, workspace: nat, locationsOf: string -> Fetched<seq<ApiLocation>>)
    returns (engine: SyncEngine, remote: Remote, error: Option<JobError>)
    requires Lawful(vault) && ConnectorToken(vault, c) != "" && c.status == Connected
    ensures remote == GoogleBusiness(Ok(()), Err(AuthError), locationsOf) && TokenIsRejected(remote)
    ensures error == Some(FetchError)
    ensures fresh(engine) && engine.connection == Some(c) && engine.accounts == rows
  {
    engine := new SyncEngine(vault, rows, Some(c));
    remote := GoogleBusiness(Ok(()), Err(AuthError), locationsOf);
    error := engine.ExecuteSyncJob(workspace, "full", remote);
  }

  lemma PageItemsStep(pages: seq<Page>, i: nat)
    requires i < |pages| && !PageItems(pages[..i]).1
    ensures var (items, p) := (PageItems(pages[..i]).0, pages[i]);
            PageItems(pages[..i + 1])
              == if p.accessToken == None || p.accessToken == Some("") then (items, false)
                 else if p.id.None? || p.name.None? then (items, true)
                 else (items + [Item(p.id.value, p.name.value, p.accessToken.value, None)], false)
  {
    assert pages[..i + 1][..i] == pages[..i];
  }

  lemma {:induction false} PageItemsStop(pages: seq<Page>, i: nat)
    requires i < |pages| && PageItems(pages[..i + 1]).1
    ensures PageItems(pages) == PageItems(pages[..i + 1])
    decreases |pages|
  {
    if i + 1 == |pages| {
      assert pages[..i + 1] == pages;
    } else {
      var k := |pages| - 1;
      assert pages[..k][..i + 1] == pages[..i + 1];
      PageItemsStop(pages[..k], i);
    }
  }
}
