/** Google Business resource names: taken apart in app/integrations/connectors/google/sync.py,
    put together again in app/integrations/sync/engine.py:356. */
module GoogleNames {
  import opened Results
  import opened Text

  // ----- Splitting at slashes

  predicate SlashFree(s: string) {
    forall i | 0 <= i < |s| :: s[i] != '/'
  }

  /** `s.split("/")` */
  function Split(s: string): (parts: seq<string>)
    ensures parts != []
  {
    if s == [] then [[]]
    else
      var rest := Split(s[1..]);
      if s[0] == '/' then [[]] + rest else [[s[0]] + rest[0]] + rest[1..]
  }

  /** Splitting loses nothing and leaves no slash. */
  lemma {:induction false} SplitJoin(s: string)
    ensures Join(Split(s), '/') == s
    ensures forall i | 0 <= i < |Split(s)| :: SlashFree(Split(s)[i])
  {
    if s != [] {
      var rest := Split(s[1..]);
      SplitJoin(s[1..]);
      if s[0] == '/' {
        assert ([[]] + rest)[1..] == rest;
        assert s == "/" + s[1..];
      } else {
        var parts := [[s[0]] + rest[0]] + rest[1..];
        assert parts[1..] == rest[1..];
        assert s == [s[0]] + s[1..];
        if |rest| > 1 {
          var tail := Join(rest[1..], '/');
          assert [s[0]] + (rest[0] + ['/'] + tail) == [s[0]] + rest[0] + ['/'] + tail;
        }
      }
    }
  }

  /** `s.split("/")[-1]` */
  function LastSegment(s: string): string {
    Split(s)[|Split(s)| - 1]
  }

  lemma LastSegmentIsSlashFree(s: string)
    ensures SlashFree(LastSegment(s))
  {
    SplitJoin(s);
  }

  lemma {:induction false} SplitOfSlashFree(a: string)
    requires SlashFree(a)
    ensures Split(a) == [a]
  {
    if a != [] {
      SplitOfSlashFree(a[1..]);
      assert [a[0]] + a[1..] == a;
      assert [a] + [a[1..]][1..] == [a];
    }
  }

  lemma {:induction false} LastSegmentAfterSlash(x: string, a: string)
    requires SlashFree(a)
    ensures LastSegment(x + "/" + a) == a
  {
    var s := x + "/" + a;
    if x == [] {
      assert s == "/" + a && s[1..] == a;
      SplitOfSlashFree(a);
    } else {
      assert s[1..] == x[1..] + "/" + a;
      LastSegmentAfterSlash(x[1..], a);
      TwoSegments(x[1..], a);
    }
  }

  lemma {:induction false} TwoSegments(x: string, a: string)
    ensures |Split(x + "/" + a)| > 1
  {
    var s := x + "/" + a;
    if x == [] {
      assert s[0] == '/';
    } else {
      assert s[1..] == x[1..] + "/" + a;
      TwoSegments(x[1..], a);
    }
  }

  // ----- The composite key

  function Key(accountId: string, locationId: string): string {
    "accounts/" + accountId + "/locations/" + locationId
  }

  /** The key the two files together give to a location, from the two resource names. */
  function KeyOf(accountName: string, locationName: string): string {
    Key(LastSegment(accountName), LastSegment(locationName))
  }

  /** For slash-free ids the key is the full resource name, whether the location was named with
      its account or without. */
  lemma KeyRoundTrip(a: string, l: string)
    requires SlashFree(a) && SlashFree(l)
    ensures KeyOf("accounts/" + a, "accounts/" + a + "/locations/" + l) == "accounts/" + a + "/locations/" + l
    ensures KeyOf("accounts/" + a, "locations/" + l) == "accounts/" + a + "/locations/" + l
  {
    assert "accounts/" + a == "accounts" + "/" + a;
    LastSegmentAfterSlash("accounts", a);
    var x := "accounts/" + a + "/locations";
    assert "accounts/" + a + "/locations/" + l == x + "/" + l;
    LastSegmentAfterSlash(x, l);
    assert "locations/" + l == "locations" + "/" + l;
    LastSegmentAfterSlash("locations", l);
  }

  /** Exactly which full location names survive being taken apart and rebuilt under an account. */
  lemma NameSurvivesExactly(accountName: string, locationName: string)
    ensures KeyOf(accountName, locationName) == locationName
       <==> exists a, l :: LocatedUnder(accountName, locationName, a, l)
  {
    var a, l := LastSegment(accountName), LastSegment(locationName);
    LastSegmentIsSlashFree(accountName);
    LastSegmentIsSlashFree(locationName);
    if KeyOf(accountName, locationName) == locationName {
      assert LocatedUnder(accountName, locationName, a, l);
    }
    if a', l' :| LocatedUnder(accountName, locationName, a', l') {
      KeyRoundTrip(a', l');
      assert locationName == "accounts/" + a' + "/locations" + "/" + l';
      LastSegmentAfterSlash("accounts/" + a' + "/locations", l');
    }
  }

  ghost predicate LocatedUnder(accountName: string, locationName: string, a: string, l: string) {
    SlashFree(a) && SlashFree(l) && LastSegment(accountName) == a && locationName == "accounts/" + a + "/locations/" + l
  }

  /** Two keys are equal exactly when both ids are: an account id has no slash, so the first
      slash after it is the separator's. */
  lemma KeyIsInjective(a: string, l: string, b: string, m: string)
    requires SlashFree(a) && SlashFree(b)
    ensures Key(a, l) == Key(b, m) <==> a == b && l == m
  {
    if Key(a, l) == Key(b, m) {
      var x, y := "/locations/" + l, "/locations/" + m;
      assert Key(a, l) == "accounts/" + (a + x) && Key(b, m) == "accounts/" + (b + y);
      assert a + x == Key(a, l)[9..] == b + y;
      FirstSlashDecides(a, x, b, y);
      assert l == x[11..] && m == y[11..];
    }
  }

  lemma FirstSlashDecides(a: string, x: string, b: string, y: string)
    requires SlashFree(a) && SlashFree(b) && a + x == b + y
    requires x != [] && x[0] == '/' && y != [] && y[0] == '/'
    ensures a == b && x == y
  {
    FirstSegment(a, x);
    FirstSegment(b, y);
    assert x == (a + x)[|a|..] && y == (b + y)[|b|..];
  }

  lemma {:induction false} FirstSegment(a: string, x: string)
    requires SlashFree(a) && x != [] && x[0] == '/'
    ensures Split(a + x)[0] == a
  {
    if a == [] {
      assert a + x == x;
    } else {
      assert (a + x)[1..] == a[1..] + x;
      FirstSegment(a[1..], x);
    }
  }

  /** So two locations of one sync share a key exactly when their last segments agree. */
  lemma KeysCollideExactly(account: string, location: string, account': string, location': string)
    ensures KeyOf(account, location) == KeyOf(account', location')
       <==> LastSegment(account) == LastSegment(account') && LastSegment(location) == LastSegment(location')
  {
    LastSegmentIsSlashFree(account);
    LastSegmentIsSlashFree(account');
    KeyIsInjective(LastSegment(account), LastSegment(location), LastSegment(account'), LastSegment(location'));
  }

  // ----- The sync loops

  datatype ApiLocation = ApiLocation(name: string, title: string)

  datatype ApiAccount = ApiAccount(name: string, accountName: string)

  datatype Location = Location(locationId: string, locationName: string)

  datatype BusinessAccount = BusinessAccount(accountId: string, accountName: string, locations: seq<Location>)

  datatype SyncError = AuthError | ApiError(status: int)

  type Fetched<T> = Result<T, SyncError>

  datatype SyncResult = Synced(businessAccounts: seq<BusinessAccount>, recordsSynced: int) | Skipped

  function NamedLocations(locations: seq<ApiLocation>): seq<ApiLocation> {
    if locations == [] then []
    else
      var k := |locations| - 1;
      NamedLocations(locations[..k]) + (if locations[k].name == "" then [] else [locations[k]])
  }

  function NamedAccounts(accounts: seq<ApiAccount>): seq<ApiAccount> {
    if accounts == [] then []
    else
      var k := |accounts| - 1;
      NamedAccounts(accounts[..k]) + (if accounts[k].name == "" then [] else [accounts[k]])
  }

  /** The indices, in order, of what is named. */
  ghost predicate Picks(named: seq<nat>, from: seq<string>) {
    && (forall i | 0 <= i < |named| :: named[i] < |from| && from[named[i]] != "")
    && (forall i, j | 0 <= i < j < |named| :: named[i] < named[j])
    && (forall k | 0 <= k < |from| && from[k] != "" :: k in named)
  }

  lemma PicksOneMore(named: seq<nat>, names: seq<string>)
    requires names != [] && Picks(named, names[..|names| - 1])
    ensures Picks(if names[|names| - 1] == "" then named else named + [|names| - 1], names)
  {
    var k := |names| - 1;
    var after := if names[k] == "" then named else named + [k];
    forall i | 0 <= i < |names| && names[i] != "" ensures i in after {
      if i < k {
        assert names[..k][i] != "" && i in named;
      } else {
        assert after[|named|] == i;
      }
    }
  }

  function LocationNames(locations: seq<ApiLocation>): (names: seq<string>)
    ensures |names| == |locations| && forall i | 0 <= i < |names| :: names[i] == locations[i].name
  {
    if locations == [] then []
    else LocationNames(locations[..|locations| - 1]) + [locations[|locations| - 1].name]
  }

  function AccountNames(accounts: seq<ApiAccount>): (names: seq<string>)
    ensures |names| == |accounts| && forall i | 0 <= i < |names| :: names[i] == accounts[i].name
  {
    if accounts == [] then []
    else AccountNames(accounts[..|accounts| - 1]) + [accounts[|accounts| - 1].name]
  }

  /** The locations that are synchronised are those whose name is not empty, in order. */
  function NamedAt(names: seq<string>): (at: seq<nat>)
    ensures forall i | 0 <= i < |at| :: at[i] < |names|
  {
    if names == [] then []
    else
      var k := |names| - 1;
      if names[k] == "" then NamedAt(names[..k]) else NamedAt(names[..k]) + [k]
  }

  lemma {:induction false} NamedAtPicks(names: seq<string>)
    ensures Picks(NamedAt(names), names)
  {
    if names != [] {
      var k := |names| - 1;
      NamedAtPicks(names[..k]);
      PicksOneMore(NamedAt(names[..k]), names);
    }
  }

  /** The locations that are synchronised are those whose name is not empty, in order. */
  lemma {:induction false} NamedLocationsExactly(locations: seq<ApiLocation>)
    ensures var at := NamedAt(LocationNames(locations));
            && Picks(at, LocationNames(locations)) && |at| == |NamedLocations(locations)|
            && forall i | 0 <= i < |at| :: NamedLocations(locations)[i] == locations[at[i]]
    decreases |locations|
  {
    NamedAtPicks(LocationNames(locations));
    if locations != [] {
      NamedLocationsExactly(locations[..|locations| - 1]);
    }
  }

  lemma {:induction false} NamedAccountsExactly(accounts: seq<ApiAccount>)
    ensures var at := NamedAt(AccountNames(accounts));
            && Picks(at, AccountNames(accounts)) && |at| == |NamedAccounts(accounts)|
            && forall i | 0 <= i < |at| :: NamedAccounts(accounts)[i] == accounts[at[i]]
    decreases |accounts|
  {
    NamedAtPicks(AccountNames(accounts));
    if accounts != [] {
      NamedAccountsExactly(accounts[..|accounts| - 1]);
    }
  }

  /** One entry per named location, in order. */
  ghost predicate LocationsParsed(locations: seq<ApiLocation>, parsed: seq<Location>) {
    var named := NamedLocations(locations);
    && |parsed| == |named|
    && forall i | 0 <= i < |named| :: parsed[i] == Location(LastSegment(named[i].name), named[i].title)
  }

  /** The entry of one account: its locations were fetched under its full name. */
  ghost predicate AccountParsed(a: ApiAccount, locationsOf: string -> Fetched<seq<ApiLocation>>, b: BusinessAccount) {
    && b.accountId == LastSegment(a.name) && b.accountName == a.accountName
    && locationsOf(a.name).Ok? && LocationsParsed(locationsOf(a.name).value, b.locations)
  }

  ghost predicate AccountsParsed(
    named: seq<ApiAccount>, locationsOf: string -> Fetched<seq<ApiLocation>>, parsed: seq<BusinessAccount>)
  {
    |parsed| == |named| && forall i | 0 <= i < |named| :: AccountParsed(named[i], locationsOf, parsed[i])
  }

  ghost predicate FirstFailure(named: seq<ApiAccount>, locationsOf: string -> Fetched<seq<ApiLocation>>, e: SyncError) {
    exists i | 0 <= i < |named| ::
      && locationsOf(named[i].name) == Err(e)
      && forall j | 0 <= j < i :: locationsOf(named[j].name).Ok?
  }

  lemma LocationsParsedOnce(locations: seq<ApiLocation>, p: seq<Location>, q: seq<Location>)
    requires LocationsParsed(locations, p) && LocationsParsed(locations, q)
    ensures p == q
  {
  }

  /** The answers of the API determine the entries. */
  lemma AccountsParsedOnce(
    named: seq<ApiAccount>, locationsOf: string -> Fetched<seq<ApiLocation>>,
    p: seq<BusinessAccount>, q: seq<BusinessAccount>)
    requires AccountsParsed(named, locationsOf, p) && AccountsParsed(named, locationsOf, q)
    ensures p == q
  {
    forall i | 0 <= i < |named| ensures p[i] == q[i] {
      assert AccountParsed(named[i], locationsOf, p[i]) && AccountParsed(named[i], locationsOf, q[i]);
      LocationsParsedOnce(locationsOf(named[i].name).value, p[i].locations, q[i].locations);
    }
  }

  /** The error that is reported is that of the first account whose locations could not be fetched. */
  lemma {:induction false} FirstFailureIsUnique(
    named: seq<ApiAccount>, locationsOf: string -> Fetched<seq<ApiLocation>>, e: SyncError, f: SyncError)
    requires FirstFailure(named, locationsOf, e) && FirstFailure(named, locationsOf, f)
    ensures e == f
  {
    var i :| && 0 <= i < |named| && locationsOf(named[i].name) == Err(e)
             && forall j | 0 <= j < i :: locationsOf(named[j].name).Ok?;
    var k :| && 0 <= k < |named| && locationsOf(named[k].name) == Err(f)
             && forall j | 0 <= j < k :: locationsOf(named[j].name).Ok?;
    assert i == k;
  }

  lemma FailureExcludesEntries(
    named: seq<ApiAccount>, locationsOf: string -> Fetched<seq<ApiLocation>>, e: SyncError, p: seq<BusinessAccount>)
    requires FirstFailure(named, locationsOf, e)
    ensures !AccountsParsed(named, locationsOf, p)
  {
    var i :| 0 <= i < |named| && locationsOf(named[i].name) == Err(e);
    assert |p| == |named| ==> !AccountParsed(named[i], locationsOf, p[i]);
  }

  method ParseLocations(locations: seq<ApiLocation>) returns (parsed: seq<Location>)
    ensures LocationsParsed(locations, parsed)
  {
    parsed := [];
    for i := 0 to |locations|
      invariant LocationsParsed(locations[..i], parsed)
    {
      assert locations[..i + 1][..i] == locations[..i];
      if locations[i].name == "" {
        continue;
      }
      parsed := parsed + [Location(LastSegment(locations[i].name), locations[i].title)];
    }
    assert locations[..|locations|] == locations;
  }

  /** `perform_sync`: one entry per named account in order, or the first failure to fetch. */
  method PerformSync(syncType: string, profile: Fetched<()>, accounts: Fetched<seq<ApiAccount>>,
                     locationsOf: string -> Fetched<seq<ApiLocation>>) returns (r: Fetched<SyncResult>)
    ensures syncType != "full" ==> r == Ok(Skipped)
    ensures syncType == "full" && profile.Err? ==> r == Err(profile.error)
    ensures syncType == "full" && profile.Ok? && accounts.Err? ==> r == Err(accounts.error)
    ensures syncType == "full" && profile.Ok? && accounts.Ok? ==>
              match r
              case Err(e) => FirstFailure(NamedAccounts(accounts.value), locationsOf, e)
              case Ok(Skipped) => false
              case Ok(Synced(businesses, records)) =>
                AccountsParsed(NamedAccounts(accounts.value), locationsOf, businesses) && records == 1 + |businesses|
  {
    if syncType != "full" {
      return Ok(Skipped);
    }
    match profile {
      case Err(e) => return Err(e);
      case Ok(_) =>
    }
    var list;
    match accounts {
      case Err(e) => return Err(e);
      case Ok(value) => list := value;
    }
    var businesses: seq<BusinessAccount> := [];
    for i := 0 to |list|
      invariant AccountsParsed(NamedAccounts(list[..i]), locationsOf, businesses)
    {
      var account := list[i];
      ghost var named := NamedAccounts(list[..i]);
      assert list[..i + 1][..i] == list[..i];
      if account.name == "" {
        continue;
      }
      var fetched := locationsOf(account.name);
      if fetched.Err? {
        NamedPrefix(list, i);
        assert NamedAccounts(list)[|named|] == account;
        assert forall j | 0 <= j < |named| :: AccountParsed(named[j], locationsOf, businesses[j]);
        return Err(fetched.error);
      }
      var parsed := ParseLocations(fetched.value);
      businesses := businesses + [BusinessAccount(LastSegment(account.name), account.accountName, parsed)];
    }
    assert list[..|list|] == list;
    return Ok(Synced(businesses, 1 + |businesses|));
  }

  lemma {:induction false} NamedPrefix(accounts: seq<ApiAccount>, i: nat)
    requires i < |accounts| && accounts[i].name != ""
    ensures NamedAccounts(accounts[..i]) + [accounts[i]] <= NamedAccounts(accounts)
  {
    var k := |accounts| - 1;
    if i < k {
      NamedPrefix(accounts[..k], i);
      assert accounts[..k][..i] == accounts[..i];
    }
  }
}
