/**
 The relational generator: builds the customer, site, storage, user,
 activity and background-job tables. Every random draw (`random.choice`,
 `random.randint`, `random.choices`, `random.sample`, the Faker values) is an
 explicit input whose range is stated as a precondition; what remains is the
 structure of the tables: keys, foreign keys, cardinalities and bounds.
 */
module Generator {
  import opened Common
  import opened Tables
  import opened GroupBy
  import opened Grid
  import opened Decimal

  // ---------------------------------------------------------------------------
  // Configuration

  const NumCustomers: nat := 65
  /** `10**9`: customer `i` gets id `10**9 + i`. */
  const IdBase: nat := 1000000000
  const NumInternal: nat := 8

  const Industries: seq<string> := [
    "Technology", "Finance", "Healthcare", "Retail", "Education",
    "Manufacturing", "Transportation & Logistics", "Media & Entertainment",
    "Professional Services", "Government & Public Sector"]
  const Regions: seq<string> := ["North America", "EMEA", "APAC"]
  const AccountTiers: seq<string> := ["Commercial", "SMB", "Enterprise"]
  const ActivityTypes: seq<string> := ["Access", "Create", "View", "Publish"]
  const JobTypes: seq<string> := ["extract", "subscription", "flow run", "alert", "bridge"]
  const LicenseTypes: seq<string> := ["Viewer", "Explorer", "Creator"]

  const MinSites: nat := 1
  const MaxSites: nat := 3
  /** Site ids are "A" followed by this many random digits. */
  const SiteDigits: nat := 11
  const MinBytes: nat := 1000000
  const MaxBytes: nat := 100000000
  const MaxPool: nat := 10
  const MinEvents: nat := 1
  const MaxEvents: nat := 4
  const MinJobMinutes: nat := 1
  const MaxJobMinutes: nat := 80

  // ---------------------------------------------------------------------------
  // 1. Customers

  /** The draws for one customer: indices into the three fixed lists and the
      Faker company e-mail. */
  datatype CustomerDraw = CustomerDraw(industry: nat, region: nat, tier: nat, contactEmail: string)

  predicate CustomerDrawOk(d: CustomerDraw)
  {
    d.industry < |Industries| && d.region < |Regions| && d.tier < |AccountTiers|
  }

  /** Customer `i` (counting from 1). */
  function CustomerIdOf(i: nat): CustomerId
  {
    IdBase + i
  }

  /** The customer table: customer `i + 1` takes the `i`-th draw. */
  function CustomerTable(draws: seq<CustomerDraw>): (r: seq<CustomerRow>)
    requires |draws| == NumCustomers
    requires forall i :: 0 <= i < |draws| ==> CustomerDrawOk(draws[i])
    ensures |r| == NumCustomers
    ensures forall i, j :: 0 <= i < j < |r| ==> r[i].customerId < r[j].customerId
    ensures CustomerIdsUnique(r)
    ensures forall i :: 0 <= i < |r| ==>
      r[i].industry in Industries && r[i].region in Regions && r[i].accountTier in AccountTiers
      && r[i].contactEmail == draws[i].contactEmail
  {
    seq(|draws|, i requires 0 <= i < |draws| && CustomerDrawOk(draws[i]) =>
      CustomerRow(CustomerIdOf(i + 1), Industries[draws[i].industry], Regions[draws[i].region],
                  AccountTiers[draws[i].tier], draws[i].contactEmail))
  }

  /** The customer ids of a customer table. */
  function IdsOf(customers: seq<CustomerRow>): set<CustomerId>
  {
    set i | 0 <= i < |customers| :: customers[i].customerId
  }

  /** The ids issued are exactly `10**9 + 1 .. 10**9 + 65`, each written with
      ten digits. */
  lemma CustomerIdsIssued(draws: seq<CustomerDraw>)
    requires |draws| == NumCustomers
    requires forall i :: 0 <= i < |draws| ==> CustomerDrawOk(draws[i])
    ensures forall id: nat :: id in IdsOf(CustomerTable(draws)) <==> IdBase + 1 <= id <= IdBase + NumCustomers
    ensures forall i :: 0 <= i < NumCustomers ==> |Digits(CustomerTable(draws)[i].customerId)| == 10
  {
    var r := CustomerTable(draws);
    forall id: nat | IdBase + 1 <= id <= IdBase + NumCustomers
      ensures id in IdsOf(r)
    {
      assert r[id - IdBase - 1].customerId == id;
    }
    forall i | 0 <= i < NumCustomers ensures |Digits(r[i].customerId)| == 10 {
      assert Pow10(9) == IdBase;
      DigitsLength(r[i].customerId, 9);
    }
  }

  /** `customer_id.iloc[:8]`: the ids of the first eight customers. */
  function InternalAccounts(customers: seq<CustomerRow>): (r: seq<CustomerId>)
    ensures |r| == if |customers| < NumInternal then |customers| else NumInternal
  {
    var n := if |customers| < NumInternal then |customers| else NumInternal;
    seq(n, i requires 0 <= i < n => customers[i].customerId)
  }

  /** The internal accounts are the customers numbered 1 to 8. */
  lemma InternalAccountsAreFirstEight(draws: seq<CustomerDraw>)
    requires |draws| == NumCustomers
    requires forall i :: 0 <= i < |draws| ==> CustomerDrawOk(draws[i])
    ensures |InternalAccounts(CustomerTable(draws))| == NumInternal
    ensures forall i :: 0 <= i < NumInternal ==> InternalAccounts(CustomerTable(draws))[i] == CustomerIdOf(i + 1)
  {
  }

  // ---------------------------------------------------------------------------
  // 2. Sites

  /** The site id issued for a draw of eleven digits. */
  function SiteIdOf(draw: string): SiteId
  {
    "A" + draw
  }

  /** A draw of `random.choices('0123456789', k=11)`. */
  predicate SiteDrawOk(draw: string)
  {
    |draw| == SiteDigits && AllDigits(draw)
  }

  /** "A" followed by eleven digits. */
  predicate WellFormedSiteId(s: SiteId)
  {
    |s| == SiteDigits + 1 && s[0] == 'A' && AllDigits(s[1..])
  }

  lemma SiteIdOfInjective(a: string, b: string)
    ensures SiteIdOf(a) == SiteIdOf(b) ==> a == b
  {
    if SiteIdOf(a) == SiteIdOf(b) {
      assert a == SiteIdOf(a)[1..];
    }
  }

  /** `n` copies of `x`. */
  function Repeat<T>(x: T, n: nat): (r: seq<T>)
    ensures |r| == n && forall i :: 0 <= i < n ==> r[i] == x
  {
    seq(n, i => x)
  }

  /** The owner of each site in issue order: each customer in turn, once per
      site drawn for it (`random.randint(1, 3)`). */
  function Owners(customers: seq<CustomerRow>, counts: seq<nat>): (r: seq<CustomerId>)
    requires |counts| == |customers|
    ensures |r| == Sum(counts)
  {
    if |customers| == 0 then []
    else
      Owners(customers[..|customers| - 1], counts[..|counts| - 1])
        + Repeat(customers[|customers| - 1].customerId, counts[|counts| - 1])
  }

  lemma {:induction false} CountConcat<T>(a: seq<T>, b: seq<T>, x: T)
    ensures Count(a + b, x) == Count(a, x) + Count(b, x)
  {
    if |b| > 0 {
      var ab := a + b;
      assert ab[..|ab| - 1] == a + b[..|b| - 1];
      CountConcat(a, b[..|b| - 1], x);
    } else {
      assert a + b == a;
    }
  }

  lemma {:induction false} CountRepeat<T>(y: T, n: nat, x: T)
    ensures Count(Repeat(y, n), x) == if x == y then n else 0
  {
    if n > 0 {
      assert Repeat(y, n)[..n - 1] == Repeat(y, n - 1);
      CountRepeat(y, n - 1, x);
    }
  }

  /** Customer `i` owns exactly `counts[i]` of the issued sites, and nobody
      else owns any. */
  lemma {:induction false} OwnersCount(customers: seq<CustomerRow>, counts: seq<nat>, id: CustomerId)
    requires |counts| == |customers|
    requires CustomerIdsUnique(customers)
    ensures forall i :: 0 <= i < |customers| && customers[i].customerId == id ==> Count(Owners(customers, counts), id) == counts[i]
    ensures (forall i :: 0 <= i < |customers| ==> customers[i].customerId != id) ==> Count(Owners(customers, counts), id) == 0
  {
    if |customers| > 0 {
      var n := |customers| - 1;
      var init := customers[..n];
      assert CustomerIdsUnique(init) by {
        forall i, j | 0 <= i < j < |init| ensures init[i].customerId != init[j].customerId {
          assert init[i] == customers[i] && init[j] == customers[j];
        }
      }
      OwnersCount(init, counts[..n], id);
      var last := customers[n];
      assert Count(Owners(customers, counts), id)
        == Count(Owners(init, counts[..n]), id) + (if last.customerId == id then counts[n] else 0)
      by {
        CountConcat(Owners(init, counts[..n]), Repeat(last.customerId, counts[n]), id);
        CountRepeat(last.customerId, counts[n], id);
      }
      forall i | 0 <= i < |customers| && customers[i].customerId == id
        ensures Count(Owners(customers, counts), id) == counts[i]
      {
        if i < n {
          assert init[i] == customers[i];
        } else {
          assert forall j :: 0 <= j < n ==> init[j].customerId != id;
        }
      }
      if forall i :: 0 <= i < |customers| ==> customers[i].customerId != id {
        assert forall j :: 0 <= j < n ==> init[j] == customers[j];
      }
    }
  }

  /** The `while True` loop for one site: draws candidates until one gives an
      id not issued yet. Returns that id and the number of draws consumed;
      `None` if the supplied draws run out first. */
  function NextFresh(issued: set<SiteId>, cands: seq<string>): (r: Option<(SiteId, nat)>)
    ensures r.Some? ==>
      && 1 <= r.value.1 <= |cands|
      && r.value.0 == SiteIdOf(cands[r.value.1 - 1])
      && r.value.0 !in issued
      && forall j :: 0 <= j < r.value.1 - 1 ==> SiteIdOf(cands[j]) in issued
    ensures r.None? <==> forall j :: 0 <= j < |cands| ==> SiteIdOf(cands[j]) in issued
  {
    if |cands| == 0 then None
    else if SiteIdOf(cands[0]) !in issued then Some((SiteIdOf(cands[0]), 1))
    else
      match NextFresh(issued, cands[1..])
      case None => None
      case Some(p) => Some((p.0, p.1 + 1))
  }

  /** The site ids one can draw from `cands`. */
  function Drawn(cands: seq<string>): set<SiteId>
  {
    set j | 0 <= j < |cands| :: SiteIdOf(cands[j])
  }

  /** Issues one site per owner, in order, each through the rejection loop,
      adding every issued id to the `site_ids` set. */
  function IssueSites(owners: seq<CustomerId>, issued: set<SiteId>, cands: seq<string>): (r: Option<seq<SiteRow>>)
    ensures r.Some? ==> |r.value| == |owners|
    ensures r.Some? ==> forall i :: 0 <= i < |owners| ==> r.value[i].customerId == owners[i]
    ensures r.Some? ==> forall i :: 0 <= i < |owners| ==> r.value[i].siteId !in issued && r.value[i].siteId in Drawn(cands)
    ensures r.Some? ==> SiteIdsUnique(r.value)
    decreases |owners|
  {
    if |owners| == 0 then Some([])
    else
      match NextFresh(issued, cands)
      case None => None
      case Some(p) =>
        var rest := IssueSites(owners[1..], issued + {p.0}, cands[p.1..]);
        if rest.None? then None
        else
          var r := [SiteRow(owners[0], p.0)] + rest.value;
          assert p.0 in Drawn(cands);
          assert forall i :: 1 <= i < |r| ==> r[i] == rest.value[i - 1];
          assert Drawn(cands[p.1..]) <= Drawn(cands) by {
            forall s | s in Drawn(cands[p.1..]) ensures s in Drawn(cands) {
              var j :| 0 <= j < |cands| - p.1 && s == SiteIdOf(cands[p.1..][j]);
              assert cands[p.1..][j] == cands[j + p.1];
            }
          }
          Some(r)
  }

  /** With enough distinct draws, none of which gives an id issued already,
      the rejection loop never runs dry: every site gets its id. */
  lemma {:induction false} IssueSitesSucceeds(owners: seq<CustomerId>, issued: set<SiteId>, cands: seq<string>)
    requires Distinct(cands)
    requires |cands| >= |owners|
    requires forall j :: 0 <= j < |cands| ==> SiteIdOf(cands[j]) !in issued
    ensures IssueSites(owners, issued, cands).Some?
    decreases |owners|
  {
    if |owners| > 0 {
      var p := NextFresh(issued, cands);
      assert p == Some((SiteIdOf(cands[0]), 1));
      var rest := cands[1..];
      forall j | 0 <= j < |rest| ensures SiteIdOf(rest[j]) !in issued + {p.value.0} {
        assert rest[j] == cands[j + 1];
        SiteIdOfInjective(rest[j], cands[0]);
      }
      assert Distinct(rest) by {
        forall a, b | 0 <= a < b < |rest| ensures rest[a] != rest[b] {
          assert rest[a] == cands[a + 1] && rest[b] == cands[b + 1];
        }
      }
      IssueSitesSucceeds(owners[1..], issued + {p.value.0}, rest);
    }
  }

  /** Prefixes the rows already issued to the outcome of the remaining
      iterations. */
  function Prepend(rows: seq<SiteRow>, o: Option<seq<SiteRow>>): Option<seq<SiteRow>>
  {
    if o.None? then None else Some(rows + o.value)
  }

  /** A rejection loop's outcome seen from `n` draws earlier. */
  function Shift(o: Option<(SiteId, nat)>, n: nat): Option<(SiteId, nat)>
  {
    if o.None? then None else Some((o.value.0, o.value.1 + n))
  }

  /** One turn of the rejection loop: accept the draw at `pos`, or go on
      with the next one. */
  lemma NextFreshStep(issued: set<SiteId>, cands: seq<string>, pos: nat)
    requires pos < |cands|
    ensures NextFresh(issued, cands[pos..]) ==
      if SiteIdOf(cands[pos]) !in issued then Some((SiteIdOf(cands[pos]), 1))
      else Shift(NextFresh(issued, cands[pos + 1..]), 1)
  {
    assert cands[pos..][1..] == cands[pos + 1..];
    assert cands[pos..][0] == cands[pos];
  }

  /** One turn of the site loop: issue an id to the first owner, then the
      rest. */
  lemma IssueSitesStep(owners: seq<CustomerId>, issued: set<SiteId>, cands: seq<string>)
    requires |owners| > 0
    ensures IssueSites(owners, issued, cands) ==
      match NextFresh(issued, cands)
      case None => None
      case Some(p) => Prepend([SiteRow(owners[0], p.0)], IssueSites(owners[1..], issued + {p.0}, cands[p.1..]))
  {
  }

  /** The outer loop's invariant is kept by one turn. */
  lemma IssueLoopStep(owners: seq<CustomerId>, cands: seq<string>, rows: seq<SiteRow>, siteIds: set<SiteId>,
                      i: nat, pos: nat, picked: SiteId, next: nat)
    requires i < |owners| && pos <= next <= |cands|
    requires NextFresh(siteIds, cands[pos..]) == Some((picked, next - pos))
    ensures Prepend(rows, IssueSites(owners[i..], siteIds, cands[pos..]))
         == Prepend(rows + [SiteRow(owners[i], picked)], IssueSites(owners[i + 1..], siteIds + {picked}, cands[next..]))
  {
    var rest := IssueSites(owners[i + 1..], siteIds + {picked}, cands[next..]);
    assert owners[i..][0] == owners[i] && owners[i..][1..] == owners[i + 1..];
    assert cands[pos..][next - pos..] == cands[next..];
    assert IssueSites(owners[i..], siteIds, cands[pos..]) == Prepend([SiteRow(owners[i], picked)], rest) by {
      IssueSitesStep(owners[i..], siteIds, cands[pos..]);
    }
    PrependTwice(rows, [SiteRow(owners[i], picked)], rest);
  }

  lemma PrependTwice(a: seq<SiteRow>, b: seq<SiteRow>, o: Option<seq<SiteRow>>)
    ensures Prepend(a, Prepend(b, o)) == Prepend(a + b, o)
    ensures Prepend([], o) == o && a + [] == a
  {
    if o.Some? {
      assert a + (b + o.value) == (a + b) + o.value;
      assert [] + o.value == o.value;
    }
  }

  /** The draw loop's invariant is kept by one turn. */
  lemma DrawFreshStep(issued: set<SiteId>, cands: seq<string>, start: nat, pos: nat)
    requires start <= pos < |cands|
    requires NextFresh(issued, cands[start..]) == Shift(NextFresh(issued, cands[pos..]), pos - start)
    ensures SiteIdOf(cands[pos]) !in issued ==>
      NextFresh(issued, cands[start..]) == Some((SiteIdOf(cands[pos]), pos + 1 - start))
    ensures SiteIdOf(cands[pos]) in issued ==>
      NextFresh(issued, cands[start..]) == Shift(NextFresh(issued, cands[pos + 1..]), pos + 1 - start)
  {
    NextFreshStep(issued, cands, pos);
  }

  /** The `while True` loop for one site, as the source writes it: draws
      candidates from position `start` until one is not in `site_ids`.
      Returns the accepted id, if any, and the position after the last draw
      used. */
  method DrawFresh(siteIds: set<SiteId>, cands: seq<string>, start: nat) returns (picked: Option<SiteId>, pos: nat)
    requires start <= |cands|
    ensures start <= pos <= |cands|
    ensures picked.Some? ==> NextFresh(siteIds, cands[start..]) == Some((picked.value, pos - start))
    ensures picked.None? ==> NextFresh(siteIds, cands[start..]).None?
  {
    pos := start;
    picked := None;
    while picked.None? && pos < |cands|
      invariant start <= pos <= |cands|
      invariant picked.Some? ==> NextFresh(siteIds, cands[start..]) == Some((picked.value, pos - start))
      invariant picked.None? ==> NextFresh(siteIds, cands[start..]) == Shift(NextFresh(siteIds, cands[pos..]), pos - start)
      decreases |cands| - pos
    {
      var id := SiteIdOf(cands[pos]);
      DrawFreshStep(siteIds, cands, start, pos);
      pos := pos + 1;
      if id !in siteIds {
        picked := Some(id);
      }
    }
    if picked.None? {
      assert cands[pos..] == [];
    }
  }

  /** The site loop as the source writes it: one rejection loop per site to
      issue, recording each accepted id in `site_ids`. It computes what
      `IssueSites` defines, so its ids are unique and, with distinct draws,
      at least one per site, it never runs dry. */
  method IssueSitesLoop(owners: seq<CustomerId>, cands: seq<string>) returns (r: Option<seq<SiteRow>>)
    ensures r == IssueSites(owners, {}, cands)
    ensures r.Some? ==> SiteIdsUnique(r.value) && |r.value| == |owners|
    ensures Distinct(cands) && |cands| >= |owners| ==> r.Some?
  {
    var siteIds: set<SiteId> := {};
    var rows: seq<SiteRow> := [];
    var pos := 0;
    var i := 0;
    assert owners[0..] == owners && cands[0..] == cands;
    PrependTwice([], [], IssueSites(owners, {}, cands));
    while i < |owners|
      invariant 0 <= i <= |owners| && 0 <= pos <= |cands|
      invariant IssueSites(owners, {}, cands) == Prepend(rows, IssueSites(owners[i..], siteIds, cands[pos..]))
    {
      var picked, next := DrawFresh(siteIds, cands, pos);
      if picked.None? {
        IssueSitesStep(owners[i..], siteIds, cands[pos..]);
        r := None;
        if Distinct(cands) && |cands| >= |owners| {
          IssueSitesSucceeds(owners, {}, cands);
        }
        return;
      }
      var row := SiteRow(owners[i], picked.value);
      IssueLoopStep(owners, cands, rows, siteIds, i, pos, picked.value, next);
      rows := rows + [row];
      siteIds := siteIds + {picked.value};
      pos := next;
      i := i + 1;
    }
    assert owners[i..] == [];
    PrependTwice(rows, [], Some([]));
    r := Some(rows);
    if Distinct(cands) && |cands| >= |owners| {
      IssueSitesSucceeds(owners, {}, cands);
    }
  }

  /** The site table: for each customer, `counts[i]` sites (1 to 3), each
      with a fresh id drawn by the rejection loop. */
  function SiteTable(customers: seq<CustomerRow>, counts: seq<nat>, cands: seq<string>): Option<seq<SiteRow>>
    requires |counts| == |customers|
  {
    IssueSites(Owners(customers, counts), {}, cands)
  }

  /** The site table's ids are unique and well formed; customer `i` owns
      exactly `counts[i]` sites, between 1 and 3, and every site belongs to a
      listed customer. Distinct draws, at least one per site, always give a
      table. */
  lemma SiteTableFacts(customers: seq<CustomerRow>, counts: seq<nat>, cands: seq<string>)
    requires |counts| == |customers|
    requires CustomerIdsUnique(customers)
    requires forall i :: 0 <= i < |counts| ==> MinSites <= counts[i] <= MaxSites
    requires forall j :: 0 <= j < |cands| ==> SiteDrawOk(cands[j])
    ensures Distinct(cands) && |cands| >= Sum(counts) ==> SiteTable(customers, counts, cands).Some?
    ensures var r := SiteTable(customers, counts, cands);
      r.Some? ==>
        && SiteIdsUnique(r.value)
        && (forall i :: 0 <= i < |r.value| ==> WellFormedSiteId(r.value[i].siteId))
        && (forall i :: 0 <= i < |r.value| ==> exists c :: 0 <= c < |customers| && customers[c].customerId == r.value[i].customerId)
        && (forall c :: 0 <= c < |customers| ==>
              Count(OwnerColumn(r.value), customers[c].customerId) == counts[c]
              && MinSites <= Count(OwnerColumn(r.value), customers[c].customerId) <= MaxSites)
  {
    var owners := Owners(customers, counts);
    if Distinct(cands) && |cands| >= Sum(counts) {
      IssueSitesSucceeds(owners, {}, cands);
    }
    var r := SiteTable(customers, counts, cands);
    if r.Some? {
      var sites := r.value;
      assert OwnerColumn(sites) == owners;
      forall i | 0 <= i < |sites| ensures WellFormedSiteId(sites[i].siteId) {
        var j :| 0 <= j < |cands| && sites[i].siteId == SiteIdOf(cands[j]);
        assert sites[i].siteId[1..] == cands[j];
      }
      forall i | 0 <= i < |sites|
        ensures exists c :: 0 <= c < |customers| && customers[c].customerId == sites[i].customerId
      {
        var id := sites[i].customerId;
        OwnersCount(customers, counts, id);
        assert owners[i] == id;
        CountPositive(owners, id);
      }
      forall c | 0 <= c < |customers|
        ensures Count(OwnerColumn(sites), customers[c].customerId) == counts[c]
      {
        OwnersCount(customers, counts, customers[c].customerId);
      }
    }
  }

  /** The owners column of the site table. */
  function OwnerColumn(sites: seq<SiteRow>): (r: seq<CustomerId>)
    ensures |r| == |sites| && forall i :: 0 <= i < |sites| ==> r[i] == sites[i].customerId
  {
    seq(|sites|, i requires 0 <= i < |sites| => sites[i].customerId)
  }

  // ---------------------------------------------------------------------------
  // 3. Storage

  /** The (site_id, date) key of a storage row. */
  function StorageKey(r: StorageRow): (SiteId, Date)
  {
    (r.siteId, r.date)
  }

  /** One row per site and day, in site-major order; `bytes[k]` is the
      `random.randint(1_000_000, 100_000_000)` of row `k`. */
  function StorageTable(sites: seq<SiteRow>, dates: seq<Date>, bytes: seq<nat>): (r: seq<StorageRow>)
    requires |bytes| == |sites| * |dates|
    requires forall k :: 0 <= k < |bytes| ==> MinBytes <= bytes[k] <= MaxBytes
    ensures |r| == |sites| * |dates|
    ensures forall k :: 0 <= k < |r| ==>
      && SiteRow(r[k].customerId, r[k].siteId) in sites
      && r[k].date in dates
      && r[k].storageBytes == bytes[k]
      && MinBytes <= r[k].storageBytes <= MaxBytes
  {
    var cells := Cross(sites, dates);
    CrossLength(sites, dates);
    var r := seq(|cells|, k requires 0 <= k < |cells| =>
      StorageRow(cells[k].0.customerId, cells[k].0.siteId, cells[k].1, bytes[k]));
    assert forall k :: 0 <= k < |r| ==> cells[k] in cells;
    CrossMembers(sites, dates);
    r
  }

  /** Every pair in a cross product pairs an element of each list. */
  lemma CrossMembers<A, B>(xs: seq<A>, ys: seq<B>)
    ensures forall p :: p in Cross(xs, ys) ==> p.0 in xs && p.1 in ys
  {
    forall p | p in Cross(xs, ys) ensures p.0 in xs && p.1 in ys {
      CrossMember(xs, ys, p);
    }
  }

  /** The (site row, day) of each storage row. */
  function SiteDays(r: seq<StorageRow>): (cells: seq<(SiteRow, Date)>)
    ensures |cells| == |r|
    ensures forall k :: 0 <= k < |r| ==> cells[k] == (SiteRow(r[k].customerId, r[k].siteId), r[k].date)
  {
    seq(|r|, k requires 0 <= k < |r| => (SiteRow(r[k].customerId, r[k].siteId), r[k].date))
  }

  /** Exactly one storage row per (site, day): every site of the site table
      has a row for every day, carrying the site's owner, and no two rows
      share a (site_id, date) key. */
  lemma StorageOneRowPerSiteDay(sites: seq<SiteRow>, dates: seq<Date>, bytes: seq<nat>)
    requires |bytes| == |sites| * |dates|
    requires forall k :: 0 <= k < |bytes| ==> MinBytes <= bytes[k] <= MaxBytes
    requires SiteIdsUnique(sites)
    requires Distinct(dates)
    ensures var r := StorageTable(sites, dates, bytes);
      forall i, j :: 0 <= i < |sites| && 0 <= j < |dates| ==>
        (sites[i], dates[j]) in SiteDays(r)
    ensures var r := StorageTable(sites, dates, bytes);
      forall a, b :: 0 <= a < b < |r| ==> StorageKey(r[a]) != StorageKey(r[b])
  {
    var r := StorageTable(sites, dates, bytes);
    var cells := Cross(sites, dates);
    CrossLength(sites, dates);
    assert forall k :: 0 <= k < |r| ==> r[k].customerId == cells[k].0.customerId && StorageKey(r[k]) == (cells[k].0.siteId, cells[k].1);
    forall i, j | 0 <= i < |sites| && 0 <= j < |dates|
      ensures (sites[i], dates[j]) in SiteDays(r)
    {
      CrossAt(sites, dates, i, j);
      var k := i * |dates| + j;
      assert SiteDays(r)[k] == (sites[i], dates[j]);
    }
    SiteKeysDistinct(sites);
    CrossDistinct(sites, dates);
    CrossMembers(sites, dates);
    forall a, b | 0 <= a < b < |r| ensures StorageKey(r[a]) != StorageKey(r[b]) {
      SameSiteId(sites, cells[a].0, cells[b].0);
    }
  }

  /** A site table with unique site ids has no repeated row. */
  lemma SiteKeysDistinct(sites: seq<SiteRow>)
    requires SiteIdsUnique(sites)
    ensures Distinct(sites)
  {
  }

  /** Two rows of a site table with unique ids and the same id are the same row. */
  lemma SameSiteId(sites: seq<SiteRow>, a: SiteRow, b: SiteRow)
    requires SiteIdsUnique(sites)
    requires a in sites && b in sites
    ensures a.siteId == b.siteId ==> a == b
  {
    var i :| 0 <= i < |sites| && sites[i] == a;
    var j :| 0 <= j < |sites| && sites[j] == b;
  }

  // ---------------------------------------------------------------------------
  // 6. Background jobs

  /** The (site_id, date, job type) key of a job row. */
  function JobKey(r: JobRow): (SiteId, Date, string)
  {
    (r.siteId, r.date, r.jobType)
  }

  /** One row per site, day and job type, in that loop order;
      `minutes[k]` is the `random.randint(1, 80)` of row `k`. */
  function JobsTable(sites: seq<SiteRow>, dates: seq<Date>, minutes: seq<nat>): (r: seq<JobRow>)
    requires |minutes| == |sites| * |dates| * |JobTypes|
    requires forall k :: 0 <= k < |minutes| ==> MinJobMinutes <= minutes[k] <= MaxJobMinutes
    ensures |r| == |sites| * |dates| * |JobTypes|
    ensures forall k :: 0 <= k < |r| ==>
      && SiteRow(r[k].customerId, r[k].siteId) in sites
      && r[k].date in dates
      && r[k].jobType in JobTypes
      && r[k].minutes == minutes[k]
      && MinJobMinutes <= r[k].minutes <= MaxJobMinutes
  {
    var days := Cross(sites, dates);
    var cells := Cross(days, JobTypes);
    CrossLength(sites, dates);
    CrossLength(days, JobTypes);
    CrossMembers(sites, dates);
    CrossMembers(days, JobTypes);
    var r := seq(|cells|, k requires 0 <= k < |cells| =>
      JobRow(cells[k].0.0.customerId, cells[k].0.0.siteId, cells[k].0.1, cells[k].1, minutes[k]));
    assert forall k :: 0 <= k < |r| ==> cells[k] in cells && cells[k].0 in days;
    r
  }

  /** The (site row, day, job type) of each job row. */
  function SiteDayTypes(r: seq<JobRow>): (cells: seq<(SiteRow, Date, string)>)
    ensures |cells| == |r|
    ensures forall k :: 0 <= k < |r| ==> cells[k] == (SiteRow(r[k].customerId, r[k].siteId), r[k].date, r[k].jobType)
  {
    seq(|r|, k requires 0 <= k < |r| => (SiteRow(r[k].customerId, r[k].siteId), r[k].date, r[k].jobType))
  }

  /** Exactly five job rows per (site, day), one per job type: every site of
      the site table has a row for every day and type, and no two rows share
      a (site_id, date, type) key. */
  lemma JobsOneRowPerType(sites: seq<SiteRow>, dates: seq<Date>, minutes: seq<nat>)
    requires |minutes| == |sites| * |dates| * |JobTypes|
    requires forall k :: 0 <= k < |minutes| ==> MinJobMinutes <= minutes[k] <= MaxJobMinutes
    requires SiteIdsUnique(sites)
    requires Distinct(dates)
    ensures var r := JobsTable(sites, dates, minutes);
      forall i, j, typ :: 0 <= i < |sites| && 0 <= j < |dates| && typ in JobTypes ==>
        (sites[i], dates[j], typ) in SiteDayTypes(r)
    ensures var r := JobsTable(sites, dates, minutes);
      forall a, b :: 0 <= a < b < |r| ==> JobKey(r[a]) != JobKey(r[b])
  {
    JobsCover(sites, dates, minutes);
    JobKeysDistinct(sites, dates, minutes);
  }

  lemma JobsCover(sites: seq<SiteRow>, dates: seq<Date>, minutes: seq<nat>)
    requires |minutes| == |sites| * |dates| * |JobTypes|
    requires forall k :: 0 <= k < |minutes| ==> MinJobMinutes <= minutes[k] <= MaxJobMinutes
    ensures var r := JobsTable(sites, dates, minutes);
      forall i, j, typ :: 0 <= i < |sites| && 0 <= j < |dates| && typ in JobTypes ==>
        (sites[i], dates[j], typ) in SiteDayTypes(r)
  {
    var r := JobsTable(sites, dates, minutes);
    var days := Cross(sites, dates);
    var cells := Cross(days, JobTypes);
    CrossLength(sites, dates);
    CrossLength(days, JobTypes);
    forall i, j, typ | 0 <= i < |sites| && 0 <= j < |dates| && typ in JobTypes
      ensures (sites[i], dates[j], typ) in SiteDayTypes(r)
    {
      var t :| 0 <= t < |JobTypes| && JobTypes[t] == typ;
      CrossAt(sites, dates, i, j);
      var d := i * |dates| + j;
      CrossAt(days, JobTypes, d, t);
      var k := d * |JobTypes| + t;
      assert cells[k] == ((sites[i], dates[j]), JobTypes[t]);
      assert SiteDayTypes(r)[k] == (sites[i], dates[j], typ);
    }
  }

  lemma JobKeysDistinct(sites: seq<SiteRow>, dates: seq<Date>, minutes: seq<nat>)
    requires |minutes| == |sites| * |dates| * |JobTypes|
    requires forall k :: 0 <= k < |minutes| ==> MinJobMinutes <= minutes[k] <= MaxJobMinutes
    requires SiteIdsUnique(sites)
    requires Distinct(dates)
    ensures var r := JobsTable(sites, dates, minutes);
      forall a, b :: 0 <= a < b < |r| ==> JobKey(r[a]) != JobKey(r[b])
  {
    var r := JobsTable(sites, dates, minutes);
    var days := Cross(sites, dates);
    var cells := Cross(days, JobTypes);
    CrossLength(sites, dates);
    CrossLength(days, JobTypes);
    SiteKeysDistinct(sites);
    CrossDistinct(sites, dates);
    assert Distinct(JobTypes);
    CrossDistinct(days, JobTypes);
    CrossMembers(sites, dates);
    CrossMembers(days, JobTypes);
    forall a, b | 0 <= a < b < |r| ensures JobKey(r[a]) != JobKey(r[b]) {
      assert JobKey(r[a]) == (cells[a].0.0.siteId, cells[a].0.1, cells[a].1);
      assert JobKey(r[b]) == (cells[b].0.0.siteId, cells[b].0.1, cells[b].1);
      assert cells[a] in cells && cells[b] in cells;
      SameSiteId(sites, cells[a].0.0, cells[b].0.0);
    }
  }

  // ---------------------------------------------------------------------------
  // 4. Users

  /** One entry of a customer's user pool: the Faker e-mail (user name,
      domain and the customer's top-level domain), the registration date and
      the index of the `random.choice` of license type. */
  datatype PoolEntry = PoolEntry(userEmail: string, registrationDate: Date, license: nat)

  /** `random.randint(1, 10)` entries, each with a valid license draw. */
  predicate PoolOk(pool: seq<PoolEntry>)
  {
    1 <= |pool| <= MaxPool && forall p :: 0 <= p < |pool| ==> pool[p].license < |LicenseTypes|
  }

  /** The Faker e-mails of a pool happen to be pairwise different. */
  predicate PoolEmailsDistinct(pool: seq<PoolEntry>)
  {
    forall p, q :: 0 <= p < q < |pool| ==> pool[p].userEmail != pool[q].userEmail
  }

  /** `random.sample(user_pool, random.randint(1, len(user_pool)))`: between
      1 and |pool| distinct pool positions. */
  predicate SampleOk(sample: seq<nat>, pool: seq<PoolEntry>)
  {
    1 <= |sample| <= |pool| && Distinct(sample) && forall k :: 0 <= k < |sample| ==> sample[k] < |pool|
  }

  /** The draws of the users table: one pool per customer, one sample per site
      taken from the pool of the site's owner. */
  predicate UserDrawsOk(customers: seq<CustomerRow>, pools: seq<seq<PoolEntry>>,
                        sites: seq<SiteRow>, samples: seq<seq<nat>>)
  {
    && |pools| == |customers|
    && |samples| == |sites|
    && (forall c :: 0 <= c < |customers| ==> PoolOk(pools[c]))
    && (forall c, si :: 0 <= c < |customers| && 0 <= si < |sites| && sites[si].customerId == customers[c].customerId
                        ==> SampleOk(samples[si], pools[c]))
  }

  /** The user rows of one site: the sampled pool entries, in sample order,
      each at this site under the pool's customer. Sampling is without
      replacement, so, when the pool's e-mails differ, no e-mail is assigned
      to the site twice. */
  function SiteUsers(owner: CustomerId, pool: seq<PoolEntry>, site: SiteRow, sample: seq<nat>): (r: seq<UserRow>)
    requires PoolOk(pool) && SampleOk(sample, pool)
    ensures |r| == |sample|
    ensures forall k :: 0 <= k < |r| ==>
      && r[k].customerId == owner
      && r[k].siteId == site.siteId
      && r[k].userEmail == pool[sample[k]].userEmail
      && r[k].registrationDate == pool[sample[k]].registrationDate
      && r[k].licenseType == LicenseTypes[pool[sample[k]].license]
    ensures PoolEmailsDistinct(pool) ==> forall a, b :: 0 <= a < b < |r| ==> r[a].userEmail != r[b].userEmail
  {
    seq(|sample|, k requires 0 <= k < |sample| =>
      var p := pool[sample[k]];
      UserRow(owner, site.siteId, p.userEmail, p.registrationDate, LicenseTypes[p.license]))
  }

  /** The user rows of one customer: its sites in site-table order, each
      with its sample. */
  function CustomerUsers(owner: CustomerId, pool: seq<PoolEntry>, sites: seq<SiteRow>, samples: seq<seq<nat>>): seq<UserRow>
    requires |samples| == |sites| && PoolOk(pool)
    requires forall si :: 0 <= si < |sites| && sites[si].customerId == owner ==> SampleOk(samples[si], pool)
  {
    Flatten(CustomerBlocks(owner, pool, sites, samples))
  }

  function CustomerBlocks(owner: CustomerId, pool: seq<PoolEntry>, sites: seq<SiteRow>, samples: seq<seq<nat>>)
    : (r: seq<seq<UserRow>>)
    requires |samples| == |sites| && PoolOk(pool)
    requires forall si :: 0 <= si < |sites| && sites[si].customerId == owner ==> SampleOk(samples[si], pool)
    ensures |r| == |sites|
  {
    seq(|sites|, si requires 0 <= si < |sites| =>
      if sites[si].customerId == owner then SiteUsers(owner, pool, sites[si], samples[si]) else [])
  }

  /** The users table: each customer in turn. */
  function UsersTable(customers: seq<CustomerRow>, pools: seq<seq<PoolEntry>>,
                      sites: seq<SiteRow>, samples: seq<seq<nat>>): seq<UserRow>
    requires UserDrawsOk(customers, pools, sites, samples)
  {
    Flatten(UserBlocks(customers, pools, sites, samples))
  }

  function UserBlocks(customers: seq<CustomerRow>, pools: seq<seq<PoolEntry>>,
                      sites: seq<SiteRow>, samples: seq<seq<nat>>): (r: seq<seq<UserRow>>)
    requires UserDrawsOk(customers, pools, sites, samples)
    ensures |r| == |customers|
  {
    seq(|customers|, c requires 0 <= c < |customers| =>
      CustomerUsers(customers[c].customerId, pools[c], sites, samples))
  }

  /** Where a user row of one customer comes from: one of that customer's
      sites, and an entry of that customer's pool. */
  predicate FromPool(u: UserRow, pool: seq<PoolEntry>)
  {
    exists p :: 0 <= p < |pool| && pool[p].userEmail == u.userEmail
      && pool[p].registrationDate == u.registrationDate
      && pool[p].license < |LicenseTypes| && LicenseTypes[pool[p].license] == u.licenseType
  }

  lemma CustomerUsersRows(owner: CustomerId, pool: seq<PoolEntry>, sites: seq<SiteRow>, samples: seq<seq<nat>>, u: UserRow)
    requires |samples| == |sites| && PoolOk(pool)
    requires forall si :: 0 <= si < |sites| && sites[si].customerId == owner ==> SampleOk(samples[si], pool)
    requires u in CustomerUsers(owner, pool, sites, samples)
    ensures u.customerId == owner
    ensures SiteRow(owner, u.siteId) in sites
    ensures FromPool(u, pool)
  {
    var blocks := CustomerBlocks(owner, pool, sites, samples);
    FlattenMember(blocks, u);
    var si :| 0 <= si < |blocks| && u in blocks[si];
    var k :| 0 <= k < |blocks[si]| && blocks[si][k] == u;
    assert sites[si] == SiteRow(owner, u.siteId);
    var p := samples[si][k];
    assert pool[p].userEmail == u.userEmail;
  }

  /** Users are only assigned to their own customer's sites: every user row
      names a site its customer owns, and is an entry of that customer's
      pool. */
  lemma UsersBelongToOwnSites(customers: seq<CustomerRow>, pools: seq<seq<PoolEntry>>,
                              sites: seq<SiteRow>, samples: seq<seq<nat>>)
    requires UserDrawsOk(customers, pools, sites, samples)
    ensures forall u :: u in UsersTable(customers, pools, sites, samples) ==>
      && SiteRow(u.customerId, u.siteId) in sites
      && u.licenseType in LicenseTypes
      && exists c :: 0 <= c < |customers| && customers[c].customerId == u.customerId && FromPool(u, pools[c])
  {
    var blocks := UserBlocks(customers, pools, sites, samples);
    forall u | u in UsersTable(customers, pools, sites, samples)
      ensures SiteRow(u.customerId, u.siteId) in sites
      ensures u.licenseType in LicenseTypes
      ensures exists c :: 0 <= c < |customers| && customers[c].customerId == u.customerId && FromPool(u, pools[c])
    {
      FlattenMember(blocks, u);
      var c :| 0 <= c < |blocks| && u in blocks[c];
      CustomerUsersRows(customers[c].customerId, pools[c], sites, samples, u);
    }
  }

  /** Every site of a listed customer receives at least one user. */
  lemma EverySiteHasUsers(customers: seq<CustomerRow>, pools: seq<seq<PoolEntry>>,
                          sites: seq<SiteRow>, samples: seq<seq<nat>>)
    requires UserDrawsOk(customers, pools, sites, samples)
    ensures forall si, c :: 0 <= si < |sites| && 0 <= c < |customers| && sites[si].customerId == customers[c].customerId ==>
      exists u :: u in UsersTable(customers, pools, sites, samples) && u.siteId == sites[si].siteId
  {
    var blocks := UserBlocks(customers, pools, sites, samples);
    forall si, c | 0 <= si < |sites| && 0 <= c < |customers| && sites[si].customerId == customers[c].customerId
      ensures exists u :: u in UsersTable(customers, pools, sites, samples) && u.siteId == sites[si].siteId
    {
      SiteHasUsers(customers, pools, sites, samples, si, c);
    }
  }

  lemma SiteHasUsers(customers: seq<CustomerRow>, pools: seq<seq<PoolEntry>>,
                     sites: seq<SiteRow>, samples: seq<seq<nat>>, si: nat, c: nat)
    requires UserDrawsOk(customers, pools, sites, samples)
    requires si < |sites| && c < |customers| && sites[si].customerId == customers[c].customerId
    ensures exists u :: u in UsersTable(customers, pools, sites, samples) && u.siteId == sites[si].siteId
  {
    var owner := customers[c].customerId;
    var blocks := UserBlocks(customers, pools, sites, samples);
    var inner := CustomerBlocks(owner, pools[c], sites, samples);
    assert SampleOk(samples[si], pools[c]);
    assert inner[si] == SiteUsers(owner, pools[c], sites[si], samples[si]);
    var u := inner[si][0];
    assert u.siteId == sites[si].siteId;
    FlattenMember(inner, u);
    assert blocks[c] == Flatten(inner);
    FlattenMember(blocks, u);
  }

  /** Each site of a listed customer receives exactly as many user rows as
      its sample holds: between 1 and the size of its customer's pool. No
      other site's rows, of the same customer or another, carry its id. */
  lemma SiteUserCount(customers: seq<CustomerRow>, pools: seq<seq<PoolEntry>>,
                      sites: seq<SiteRow>, samples: seq<seq<nat>>, si: nat, c: nat)
    requires UserDrawsOk(customers, pools, sites, samples)
    requires CustomerIdsUnique(customers)
    requires SiteIdsUnique(sites)
    requires si < |sites| && c < |customers| && sites[si].customerId == customers[c].customerId
    ensures UsersAt(UsersTable(customers, pools, sites, samples), sites[si].siteId) == |samples[si]|
    ensures 1 <= UsersAt(UsersTable(customers, pools, sites, samples), sites[si].siteId) <= |pools[c]|
  {
    var owner := customers[c].customerId;
    var s := sites[si].siteId;
    var blocks: seq<seq<UserRow>> := UserBlocks(customers, pools, sites, samples);
    var inner: seq<seq<UserRow>> := CustomerBlocks(owner, pools[c], sites, samples);
    assert SampleOk(samples[si], pools[c]);
    forall i: int, k: int | 0 <= i < |inner| && i != si && 0 <= k < |inner[i]|
      ensures inner[i][k].siteId != s
    {
      assert inner[i] == SiteUsers(owner, pools[c], sites[i], samples[i]);
    }
    UsersAtFlatten(inner, s, si);
    UsersAtSame(inner[si], s, true);
    assert blocks[c] == Flatten(inner);
    forall d: int, k: int | 0 <= d < |blocks| && d != c && 0 <= k < |blocks[d]|
      ensures blocks[d][k].siteId != s
    {
      var u := blocks[d][k];
      assert u in blocks[d];
      CustomerUsersRows(customers[d].customerId, pools[d], sites, samples, u);
      SameSiteId(sites, SiteRow(u.customerId, u.siteId), sites[si]);
      assert customers[d].customerId != customers[c].customerId;
    }
    UsersAtFlatten(blocks, s, c);
  }

  lemma {:induction false} UsersAtConcat(a: seq<UserRow>, b: seq<UserRow>, s: SiteId)
    ensures UsersAt(a + b, s) == UsersAt(a, s) + UsersAt(b, s)
  {
    if |b| == 0 {
      assert a + b == a;
    } else {
      var init := b[..|b| - 1];
      assert (a + b)[..|a + b| - 1] == a + init;
      UsersAtConcat(a, init, s);
    }
  }

  /** Rows all at `s` count once each; rows none at `s` count nothing. */
  lemma {:induction false} UsersAtSame(xs: seq<UserRow>, s: SiteId, at: bool)
    requires forall k :: 0 <= k < |xs| ==> (xs[k].siteId == s) == at
    ensures UsersAt(xs, s) == if at then |xs| else 0
  {
    if |xs| > 0 {
      UsersAtSame(xs[..|xs| - 1], s, at);
    }
  }

  /** When only block `j` holds rows at `s` (or no block does, for `j`
      outside the blocks), the concatenation counts exactly block `j`'s. */
  lemma {:induction false} UsersAtFlatten(xss: seq<seq<UserRow>>, s: SiteId, j: int)
    requires forall i, k :: 0 <= i < |xss| && i != j && 0 <= k < |xss[i]| ==> xss[i][k].siteId != s
    ensures UsersAt(Flatten(xss), s) == if 0 <= j < |xss| then UsersAt(xss[j], s) else 0
  {
    if |xss| > 0 {
      var init := xss[..|xss| - 1];
      var last := xss[|xss| - 1];
      assert forall i :: 0 <= i < |init| ==> init[i] == xss[i];
      UsersAtFlatten(init, s, j);
      UsersAtConcat(Flatten(init), last, s);
      if j != |xss| - 1 {
        UsersAtSame(last, s, false);
      }
    }
  }

  /** The (site_id, user_email) key of a user row. */
  function UserKey(u: UserRow): (SiteId, string)
  {
    (u.siteId, u.userEmail)
  }

  /** No user repeats within a site: sampling is without replacement, so,
      when the Faker e-mails of each pool differ, no two user rows share a
      (site_id, user_email) key. */
  lemma NoUserRepeatsAtSite(customers: seq<CustomerRow>, pools: seq<seq<PoolEntry>>,
                            sites: seq<SiteRow>, samples: seq<seq<nat>>)
    requires UserDrawsOk(customers, pools, sites, samples)
    requires CustomerIdsUnique(customers)
    requires SiteIdsUnique(sites)
    requires forall c :: 0 <= c < |pools| ==> PoolEmailsDistinct(pools[c])
    ensures var users := UsersTable(customers, pools, sites, samples);
      forall a, b :: 0 <= a < b < |users| ==> UserKey(users[a]) != UserKey(users[b])
  {
    var blocks := UserBlocks(customers, pools, sites, samples);
    forall c | 0 <= c < |blocks|
      ensures forall a, b :: 0 <= a < b < |blocks[c]| ==> UserKey(blocks[c][a]) != UserKey(blocks[c][b])
    {
      CustomerUsersDistinct(customers[c].customerId, pools[c], sites, samples);
    }
    forall c, d, x, y | 0 <= c < d < |blocks| && x in blocks[c] && y in blocks[d]
      ensures UserKey(x) != UserKey(y)
    {
      CustomerUsersRows(customers[c].customerId, pools[c], sites, samples, x);
      CustomerUsersRows(customers[d].customerId, pools[d], sites, samples, y);
      if x.siteId == y.siteId {
        SameSiteId(sites, SiteRow(x.customerId, x.siteId), SiteRow(y.customerId, y.siteId));
      }
    }
    FlattenDistinctBy(blocks, UserKey);
  }

  lemma CustomerUsersDistinct(owner: CustomerId, pool: seq<PoolEntry>, sites: seq<SiteRow>, samples: seq<seq<nat>>)
    requires |samples| == |sites| && PoolOk(pool)
    requires forall si :: 0 <= si < |sites| && sites[si].customerId == owner ==> SampleOk(samples[si], pool)
    requires SiteIdsUnique(sites)
    requires PoolEmailsDistinct(pool)
    ensures var us := CustomerUsers(owner, pool, sites, samples);
      forall a, b :: 0 <= a < b < |us| ==> UserKey(us[a]) != UserKey(us[b])
  {
    var blocks := CustomerBlocks(owner, pool, sites, samples);
    forall si, a, b | 0 <= si < |blocks| && 0 <= a < b < |blocks[si]|
      ensures UserKey(blocks[si][a]) != UserKey(blocks[si][b])
    {
      assert samples[si][a] != samples[si][b];
    }
    forall si, sj, x, y | 0 <= si < sj < |blocks| && x in blocks[si] && y in blocks[sj]
      ensures UserKey(x) != UserKey(y)
    {
      assert x.siteId == sites[si].siteId && y.siteId == sites[sj].siteId;
    }
    FlattenDistinctBy(blocks, UserKey);
  }

  // ---------------------------------------------------------------------------
  // 5. User activity

  /** One raw activity event: the (customer, user, site, date, type) tuple the
      count aggregation groups by. */
  datatype Event = Event(customerId: CustomerId, userEmail: string, siteId: SiteId, date: Date, activityType: string)

  /** `users_df[users_df['customer_id'] == id]['user_email'].tolist()`: the
      e-mails of the customer's user rows in table order. A user assigned to
      several of the customer's sites occurs once per assignment. */
  function CustomerEmails(users: seq<UserRow>, id: CustomerId): (r: seq<string>)
    ensures forall e :: e in r <==> exists u :: u in users && u.customerId == id && u.userEmail == e
  {
    if |users| == 0 then []
    else
      var init := users[..|users| - 1];
      var last := users[|users| - 1];
      var r := CustomerEmails(init, id) + (if last.customerId == id then [last.userEmail] else []);
      assert users == init + [last];
      r
  }

  /** One iteration of the three activity loops: a site, a day and one
      e-mail of the site's customer. */
  datatype Slot = Slot(site: SiteRow, date: Date, userEmail: string)

  function SiteSlots(site: SiteRow, dates: seq<Date>, users: seq<UserRow>): seq<Slot>
  {
    var cells := Cross(dates, CustomerEmails(users, site.customerId));
    seq(|cells|, k requires 0 <= k < |cells| => Slot(site, cells[k].0, cells[k].1))
  }

  /** All iterations, sites in site-table order, then days, then e-mails. */
  function Slots(sites: seq<SiteRow>, dates: seq<Date>, users: seq<UserRow>): seq<Slot>
  {
    Flatten(SlotBlocks(sites, dates, users))
  }

  /** The iterations grouped by site, in site-table order. */
  function SlotBlocks(sites: seq<SiteRow>, dates: seq<Date>, users: seq<UserRow>): (r: seq<seq<Slot>>)
    ensures |r| == |sites|
    ensures forall si :: 0 <= si < |r| ==> r[si] == SiteSlots(sites[si], dates, users)
  {
    seq(|sites|, si requires 0 <= si < |sites| => SiteSlots(sites[si], dates, users))
  }

  /** The iterations are exactly the (site, day, e-mail) triples with the
      e-mail belonging to a user row of the site's own customer; this need
      not be a user assigned to that site. */
  lemma SlotMember(sites: seq<SiteRow>, dates: seq<Date>, users: seq<UserRow>, s: Slot)
    ensures s in Slots(sites, dates, users) <==>
      s.site in sites && s.date in dates && s.userEmail in CustomerEmails(users, s.site.customerId)
  {
    var blocks := SlotBlocks(sites, dates, users);
    FlattenMember(blocks, s);
    if s in Slots(sites, dates, users) {
      var si :| 0 <= si < |blocks| && s in blocks[si];
      SiteSlotsMember(sites[si], dates, users, s);
    }
    if s.site in sites {
      var si :| 0 <= si < |sites| && sites[si] == s.site;
      SiteSlotsMember(sites[si], dates, users, s);
    }
  }

  /** The iterations of one site: that site with each day and each e-mail of
      its customer's users. */
  lemma SiteSlotsMember(site: SiteRow, dates: seq<Date>, users: seq<UserRow>, s: Slot)
    ensures s in SiteSlots(site, dates, users) <==>
      s.site == site && s.date in dates && s.userEmail in CustomerEmails(users, site.customerId)
  {
    var slots := SiteSlots(site, dates, users);
    var cells := Cross(dates, CustomerEmails(users, site.customerId));
    CrossMember(dates, CustomerEmails(users, site.customerId), (s.date, s.userEmail));
    if s in slots {
      var k :| 0 <= k < |slots| && slots[k] == s;
      assert cells[k] == (s.date, s.userEmail);
    }
    if s.site == site && (s.date, s.userEmail) in cells {
      var k :| 0 <= k < |cells| && cells[k] == (s.date, s.userEmail);
      assert slots[k] == s;
    }
  }

  /** `random.randint(1, 4)` draws of `random.choice(activity_types)`. */
  predicate EventDrawOk(types: seq<nat>)
  {
    MinEvents <= |types| <= MaxEvents && forall e :: 0 <= e < |types| ==> types[e] < |ActivityTypes|
  }

  /** The events of one iteration: one per draw, each carrying the
      iteration's customer, e-mail, site and day and the drawn type. */
  function SlotEvents(s: Slot, types: seq<nat>): (r: seq<Event>)
    requires EventDrawOk(types)
    ensures MinEvents <= |r| == |types| <= MaxEvents
    ensures forall e :: 0 <= e < |r| ==>
      r[e] == Event(s.site.customerId, s.userEmail, s.site.siteId, s.date, r[e].activityType)
      && r[e].activityType == ActivityTypes[types[e]]
  {
    seq(|types|, e requires 0 <= e < |types| =>
      Event(s.site.customerId, s.userEmail, s.site.siteId, s.date, ActivityTypes[types[e]]))
  }

  /** The raw events: the events of each iteration in turn; `draws[k]` are the
      draws of iteration `k`. */
  function RawActivity(sites: seq<SiteRow>, dates: seq<Date>, users: seq<UserRow>, draws: seq<seq<nat>>): seq<Event>
    requires |draws| == |Slots(sites, dates, users)|
    requires forall k :: 0 <= k < |draws| ==> EventDrawOk(draws[k])
  {
    Flatten(EventBlocks(Slots(sites, dates, users), draws))
  }

  function EventBlocks(slots: seq<Slot>, draws: seq<seq<nat>>): (r: seq<seq<Event>>)
    requires |draws| == |slots|
    requires forall k :: 0 <= k < |draws| ==> EventDrawOk(draws[k])
    ensures |r| == |slots|
    ensures forall k :: 0 <= k < |r| ==> r[k] == SlotEvents(slots[k], draws[k])
  {
    seq(|slots|, k requires 0 <= k < |slots| => SlotEvents(slots[k], draws[k]))
  }

  /** Between 1 and 4 raw events per iteration: the raw events are the
      iterations' blocks in turn, block `k` holds 1 to 4 events, each
      carrying iteration `k`'s customer, e-mail, site and day and a listed
      type; so there are between 1 and 4 times as many events as
      iterations. */
  lemma RawActivityBounds(sites: seq<SiteRow>, dates: seq<Date>, users: seq<UserRow>, draws: seq<seq<nat>>)
    requires |draws| == |Slots(sites, dates, users)|
    requires forall k :: 0 <= k < |draws| ==> EventDrawOk(draws[k])
    ensures var slots := Slots(sites, dates, users);
      var blocks := EventBlocks(slots, draws);
      && RawActivity(sites, dates, users, draws) == Flatten(blocks)
      && |blocks| == |slots|
      && (forall k :: 0 <= k < |blocks| ==> MinEvents <= |blocks[k]| <= MaxEvents)
      && (forall k, e :: 0 <= k < |blocks| && 0 <= e < |blocks[k]| ==>
            && blocks[k][e] == Event(slots[k].site.customerId, slots[k].userEmail, slots[k].site.siteId,
                                     slots[k].date, blocks[k][e].activityType)
            && blocks[k][e].activityType in ActivityTypes)
    ensures MinEvents * |draws| <= |RawActivity(sites, dates, users, draws)| <= MaxEvents * |draws|
  {
    var slots: seq<Slot> := Slots(sites, dates, users);
    var blocks: seq<seq<Event>> := EventBlocks(slots, draws);
    forall k | 0 <= k < |blocks|
      ensures MinEvents <= |blocks[k]| <= MaxEvents
      ensures forall e :: 0 <= e < |blocks[k]| ==>
        && blocks[k][e] == Event(slots[k].site.customerId, slots[k].userEmail, slots[k].site.siteId,
                                 slots[k].date, blocks[k][e].activityType)
        && blocks[k][e].activityType in ActivityTypes
    {
      assert blocks[k] == SlotEvents(slots[k], draws[k]);
    }
    FlattenBounds(blocks, MinEvents, MaxEvents);
  }

  /** Every raw event is at a listed site, on a listed day, of a listed type,
      by a user of the site's own customer. */
  lemma RawActivityRows(sites: seq<SiteRow>, dates: seq<Date>, users: seq<UserRow>, draws: seq<seq<nat>>)
    requires |draws| == |Slots(sites, dates, users)|
    requires forall k :: 0 <= k < |draws| ==> EventDrawOk(draws[k])
    ensures forall e :: e in RawActivity(sites, dates, users, draws) ==>
      && SiteRow(e.customerId, e.siteId) in sites
      && e.date in dates
      && e.activityType in ActivityTypes
      && exists u :: u in users && u.customerId == e.customerId && u.userEmail == e.userEmail
  {
    var slots := Slots(sites, dates, users);
    var blocks := EventBlocks(slots, draws);
    forall e | e in RawActivity(sites, dates, users, draws)
      ensures SiteRow(e.customerId, e.siteId) in sites
      ensures e.date in dates
      ensures e.activityType in ActivityTypes
      ensures exists u :: u in users && u.customerId == e.customerId && u.userEmail == e.userEmail
    {
      FlattenMember(blocks, e);
      var k :| 0 <= k < |blocks| && e in blocks[k];
      var s := slots[k];
      SlotMember(sites, dates, users, s);
      assert s.site == SiteRow(e.customerId, e.siteId);
    }
  }

  /** Every user of a customer is active at every one of the customer's sites
      on every day, whether or not the user is assigned to that site. */
  lemma EveryUserActiveDaily(sites: seq<SiteRow>, dates: seq<Date>, users: seq<UserRow>, draws: seq<seq<nat>>,
                             site: SiteRow, d: Date, u: UserRow)
    requires |draws| == |Slots(sites, dates, users)|
    requires forall k :: 0 <= k < |draws| ==> EventDrawOk(draws[k])
    requires site in sites && d in dates && u in users && u.customerId == site.customerId
    ensures exists e :: (e in RawActivity(sites, dates, users, draws)
                         && e == Event(site.customerId, u.userEmail, site.siteId, d, e.activityType))
  {
    var slots := Slots(sites, dates, users);
    var blocks := EventBlocks(slots, draws);
    var s := Slot(site, d, u.userEmail);
    SlotMember(sites, dates, users, s);
    var k :| 0 <= k < |slots| && slots[k] == s;
    var e := blocks[k][0];
    FlattenMember(blocks, e);
  }

  /** The activity-table row of a counted event tuple. */
  function CountedRow(g: (Event, nat)): ActivityRow
  {
    ActivityRow(g.0.customerId, g.0.userEmail, g.0.siteId, g.0.date, g.0.activityType, g.1)
  }

  /** The event tuple of an activity-table row. */
  function EventOf(r: ActivityRow): Event
  {
    Event(r.customerId, r.userEmail, r.siteId, r.date, r.activityType)
  }

  /** The sum of the `event_count` column. */
  function EventTotal(rows: seq<ActivityRow>): nat
  {
    if |rows| == 0 then 0 else rows[0].eventCount + EventTotal(rows[1..])
  }

  lemma {:induction false} EventTotalOfCounts(g: seq<(Event, nat)>)
    ensures EventTotal(seq(|g|, i requires 0 <= i < |g| => CountedRow(g[i]))) == Total(g)
  {
    if |g| > 0 {
      var rows := seq(|g|, i requires 0 <= i < |g| => CountedRow(g[i]));
      var tail := g[1..];
      assert rows[1..] == seq(|tail|, i requires 0 <= i < |tail| => CountedRow(tail[i]));
      EventTotalOfCounts(tail);
    }
  }

  /** `groupby([...five columns...]).size().reset_index(name='event_count')`:
      one row per distinct event tuple, counting its occurrences. */
  function ActivityCounts(raw: seq<Event>): (r: seq<ActivityRow>)
    ensures forall a, b :: 0 <= a < b < |r| ==> EventOf(r[a]) != EventOf(r[b])
    ensures forall i :: 0 <= i < |r| ==> r[i].eventCount == Count(raw, EventOf(r[i])) && r[i].eventCount >= 1
    ensures forall e :: e in raw <==> exists i :: 0 <= i < |r| && EventOf(r[i]) == e
    ensures EventTotal(r) == |raw|
  {
    var g := GroupCount(raw);
    var r := seq(|g|, i requires 0 <= i < |g| => CountedRow(g[i]));
    EventTotalOfCounts(g);
    CountedRowsFacts(raw, g, r);
    r
  }

  /** Rows made from the group sizes, one per group: distinct tuples, each
      with its occurrence count, covering every raw event. */
  lemma CountedRowsFacts(raw: seq<Event>, g: seq<(Event, nat)>, r: seq<ActivityRow>)
    requires g == GroupCount(raw)
    requires |r| == |g| && forall i :: 0 <= i < |r| ==> r[i] == CountedRow(g[i])
    ensures forall a, b :: 0 <= a < b < |r| ==> EventOf(r[a]) != EventOf(r[b])
    ensures forall i :: 0 <= i < |r| ==> r[i].eventCount == Count(raw, EventOf(r[i])) && r[i].eventCount >= 1
    ensures forall e :: e in raw <==> exists i :: 0 <= i < |r| && EventOf(r[i]) == e
  {
    assert forall i :: 0 <= i < |r| ==> EventOf(r[i]) == g[i].0 && g[i].0 in KeysOf(g);
    forall e | e in raw ensures exists i :: 0 <= i < |r| && EventOf(r[i]) == e {
      assert e in KeysOf(g);
    }
  }

}
