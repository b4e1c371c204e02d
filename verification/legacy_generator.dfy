/**
 The earlier, flat generator: fifty customers numbered 1 to 50, three sites
 per customer labelled `site_1` to `site_3`, five users per customer, and the
 storage, user, activity and background-job tables built from them. As in the
 relational generator every random draw is an explicit input. The site
 labels are reused by every customer, so a label alone does not name a site,
 and the job table carries no customer at all.
 */
module LegacyGenerator {
  import opened Common
  import opened Tables
  import opened GroupBy
  import opened Grid
  import opened Decimal
  import opened Generator

  // ---------------------------------------------------------------------------
  // Configuration

  const LegacyCustomers: nat := 50
  const SitesPerCustomer: nat := 3
  const UsersPerCustomer: nat := 5
  const MaxLegacyEvents: nat := 5
  const MaxLegacyJobMinutes: nat := 30

  /** `range(lo, hi)`. */
  function Range(lo: nat, hi: nat): (r: seq<nat>)
    requires lo <= hi
    ensures |r| == hi - lo
    ensures forall i :: 0 <= i < |r| ==> r[i] == lo + i
  {
    seq(hi - lo, i requires 0 <= i < hi - lo => lo + i)
  }

  /** The numbers in `range(lo, hi)` are exactly those from `lo` up to but
      excluding `hi`, each once. */
  lemma RangeMember(lo: nat, hi: nat)
    requires lo <= hi
    ensures forall x :: x in Range(lo, hi) <==> lo <= x < hi
    ensures Distinct(Range(lo, hi))
  {
    forall x | lo <= x < hi ensures x in Range(lo, hi) {
      assert Range(lo, hi)[x - lo] == x;
    }
  }

  /** Customer numbers `1 .. 50`. */
  function CustomerNumbers(): seq<nat>
  {
    Range(1, LegacyCustomers + 1)
  }

  /** `f'site_{n}'`. */
  function SiteLabel(n: nat): SiteId
  {
    "site_" + Digits(n)
  }

  /** Different site numbers get different labels. */
  lemma SiteLabelInjective(a: nat, b: nat)
    ensures SiteLabel(a) == SiteLabel(b) <==> a == b
  {
    if SiteLabel(a) == SiteLabel(b) {
      assert SiteLabel(a)[5..] == Digits(a);
      assert SiteLabel(b)[5..] == Digits(b);
      DigitsInjective(a, b);
    }
  }

  /** The labels `site_1`, `site_2`, `site_3` every customer uses. */
  function SiteLabels(): (r: seq<SiteId>)
    ensures |r| == SitesPerCustomer
    ensures forall i :: 0 <= i < |r| ==> r[i] == SiteLabel(i + 1)
  {
    seq(SitesPerCustomer, i requires 0 <= i < SitesPerCustomer => SiteLabel(i + 1))
  }

  /** A label is one of the three exactly when it names site 1, 2 or 3, and
      the three labels differ. */
  lemma SiteLabelsMember(n: nat)
    ensures SiteLabel(n) in SiteLabels() <==> 1 <= n <= SitesPerCustomer
    ensures Distinct(SiteLabels())
  {
    if SiteLabel(n) in SiteLabels() {
      var i :| 0 <= i < SitesPerCustomer && SiteLabels()[i] == SiteLabel(n);
      SiteLabelInjective(i + 1, n);
    }
    if 1 <= n <= SitesPerCustomer {
      assert SiteLabels()[n - 1] == SiteLabel(n);
    }
    forall i, j | 0 <= i < j < SitesPerCustomer ensures SiteLabels()[i] != SiteLabels()[j] {
      SiteLabelInjective(i + 1, j + 1);
    }
  }

  // ---------------------------------------------------------------------------
  // 1. Storage

  /** One row per customer, site label and day, in that loop order;
      `bytes[k]` is the `random.randint(1_000_000, 100_000_000)` of row `k`. */
  function LegacyStorage(dates: seq<Date>, bytes: seq<nat>): (r: seq<StorageRow>)
    requires |bytes| == LegacyCustomers * SitesPerCustomer * |dates|
    requires forall k :: 0 <= k < |bytes| ==> MinBytes <= bytes[k] <= MaxBytes
    ensures |r| == LegacyCustomers * SitesPerCustomer * |dates|
    ensures forall k :: 0 <= k < |r| ==>
      && 1 <= r[k].customerId <= LegacyCustomers
      && r[k].siteId in SiteLabels()
      && r[k].date in dates
      && r[k].storageBytes == bytes[k]
      && MinBytes <= r[k].storageBytes <= MaxBytes
  {
    var cells := StorageCells(dates);
    seq(|cells|, k requires 0 <= k < |cells| => StorageRow(cells[k].0.0, cells[k].0.1, cells[k].1, bytes[k]))
  }

  /** The iterations of the storage loops: customers, then site labels, then
      days. */
  function StorageCells(dates: seq<Date>): (cells: seq<((CustomerId, SiteId), Date)>)
    ensures |cells| == LegacyCustomers * SitesPerCustomer * |dates|
    ensures forall k :: 0 <= k < |cells| ==>
      1 <= cells[k].0.0 <= LegacyCustomers && cells[k].0.1 in SiteLabels() && cells[k].1 in dates
  {
    var sites := Cross(CustomerNumbers(), SiteLabels());
    var cells := Cross(sites, dates);
    CrossLength(CustomerNumbers(), SiteLabels());
    CrossLength(sites, dates);
    CrossMembers(CustomerNumbers(), SiteLabels());
    CrossMembers(sites, dates);
    RangeMember(1, LegacyCustomers + 1);
    assert forall k :: 0 <= k < |cells| ==> cells[k] in cells && cells[k].0 in sites;
    cells
  }

  /** Customer `c`, site number `s` and day `j` is iteration
      `((c - 1) * 3 + s - 1) * |dates| + j`. */
  lemma StorageCellAt(dates: seq<Date>, c: nat, s: nat, j: nat) returns (k: nat)
    requires 1 <= c <= LegacyCustomers && 1 <= s <= SitesPerCustomer && j < |dates|
    ensures k < |StorageCells(dates)|
    ensures StorageCells(dates)[k] == ((c, SiteLabel(s)), dates[j])
  {
    var sites := Cross(CustomerNumbers(), SiteLabels());
    var i := (c - 1) * SitesPerCustomer + (s - 1);
    assert i < |sites| && sites[i] == (c, SiteLabel(s)) by {
      CrossLength(CustomerNumbers(), SiteLabels());
      CrossAt(CustomerNumbers(), SiteLabels(), c - 1, s - 1);
    }
    CrossAt(sites, dates, i, j);
    k := i * |dates| + j;
  }

  /** The (customer_id, site_id, date) key of a legacy storage row. */
  function LegacyStorageKey(r: StorageRow): (CustomerId, SiteId, Date)
  {
    (r.customerId, r.siteId, r.date)
  }

  /** The key column of a storage table. */
  function LegacyStorageKeys(r: seq<StorageRow>): (keys: seq<(CustomerId, SiteId, Date)>)
    ensures |keys| == |r| && forall k :: 0 <= k < |r| ==> keys[k] == LegacyStorageKey(r[k])
  {
    seq(|r|, k requires 0 <= k < |r| => LegacyStorageKey(r[k]))
  }

  /** Exactly one storage row per customer, site and day: every
      (customer, site number, day) has a row and no two rows share a
      (customer_id, site_id, date) key. */
  lemma LegacyStorageOneRowPerSiteDay(dates: seq<Date>, bytes: seq<nat>)
    requires |bytes| == LegacyCustomers * SitesPerCustomer * |dates|
    requires forall k :: 0 <= k < |bytes| ==> MinBytes <= bytes[k] <= MaxBytes
    requires Distinct(dates)
    ensures var r := LegacyStorage(dates, bytes);
      forall c: nat, s: nat, j: nat :: 1 <= c <= LegacyCustomers && 1 <= s <= SitesPerCustomer && 0 <= j < |dates| ==>
        (c, SiteLabel(s), dates[j]) in LegacyStorageKeys(r)
    ensures var r := LegacyStorage(dates, bytes);
      forall a, b :: 0 <= a < b < |r| ==> LegacyStorageKey(r[a]) != LegacyStorageKey(r[b])
  {
    LegacyStorageCover(dates, bytes);
    LegacyStorageKeysDistinct(dates, bytes);
  }

  lemma LegacyStorageCover(dates: seq<Date>, bytes: seq<nat>)
    requires |bytes| == LegacyCustomers * SitesPerCustomer * |dates|
    requires forall k :: 0 <= k < |bytes| ==> MinBytes <= bytes[k] <= MaxBytes
    ensures var r := LegacyStorage(dates, bytes);
      forall c: nat, s: nat, j: nat :: 1 <= c <= LegacyCustomers && 1 <= s <= SitesPerCustomer && 0 <= j < |dates| ==>
        (c, SiteLabel(s), dates[j]) in LegacyStorageKeys(r)
  {
    var r := LegacyStorage(dates, bytes);
    forall c: nat, s: nat, j: nat | 1 <= c <= LegacyCustomers && 1 <= s <= SitesPerCustomer && 0 <= j < |dates|
      ensures (c, SiteLabel(s), dates[j]) in LegacyStorageKeys(r)
    {
      var k := LegacyStorageAt(dates, bytes, c, s, j);
      assert LegacyStorageKeys(r)[k] == (c, SiteLabel(s), dates[j]);
    }
  }

  /** Position of the row of customer `c`, site number `s` and day `j`. */
  lemma LegacyStorageAt(dates: seq<Date>, bytes: seq<nat>, c: nat, s: nat, j: nat) returns (k: nat)
    requires |bytes| == LegacyCustomers * SitesPerCustomer * |dates|
    requires forall k :: 0 <= k < |bytes| ==> MinBytes <= bytes[k] <= MaxBytes
    requires 1 <= c <= LegacyCustomers && 1 <= s <= SitesPerCustomer && j < |dates|
    ensures k < |LegacyStorage(dates, bytes)|
    ensures LegacyStorageKey(LegacyStorage(dates, bytes)[k]) == (c, SiteLabel(s), dates[j])
  {
    k := StorageCellAt(dates, c, s, j);
  }

  lemma LegacyStorageKeysDistinct(dates: seq<Date>, bytes: seq<nat>)
    requires |bytes| == LegacyCustomers * SitesPerCustomer * |dates|
    requires forall k :: 0 <= k < |bytes| ==> MinBytes <= bytes[k] <= MaxBytes
    requires Distinct(dates)
    ensures var r := LegacyStorage(dates, bytes);
      forall a, b :: 0 <= a < b < |r| ==> LegacyStorageKey(r[a]) != LegacyStorageKey(r[b])
  {
    var r := LegacyStorage(dates, bytes);
    var sites := Cross(CustomerNumbers(), SiteLabels());
    var cells := Cross(sites, dates);
    CrossLength(CustomerNumbers(), SiteLabels());
    CrossLength(sites, dates);
    RangeMember(1, LegacyCustomers + 1);
    SiteLabelsMember(0);
    CrossDistinct(CustomerNumbers(), SiteLabels());
    CrossDistinct(sites, dates);
    forall a, b | 0 <= a < b < |r| ensures LegacyStorageKey(r[a]) != LegacyStorageKey(r[b]) {
      assert LegacyStorageKey(r[a]) == (cells[a].0.0, cells[a].0.1, cells[a].1);
      assert LegacyStorageKey(r[b]) == (cells[b].0.0, cells[b].0.1, cells[b].1);
    }
  }

  /** A site label does not identify a site: on any day, customers 1 and 2
      each have a `site_1` storage row. */
  lemma LegacySiteLabelsShared(dates: seq<Date>, bytes: seq<nat>)
    requires |bytes| == LegacyCustomers * SitesPerCustomer * |dates|
    requires forall k :: 0 <= k < |bytes| ==> MinBytes <= bytes[k] <= MaxBytes
    requires |dates| > 0
    ensures var r := LegacyStorage(dates, bytes);
      exists a, b :: (0 <= a < |r| && 0 <= b < |r|
                      && StorageKey(r[a]) == StorageKey(r[b]) && r[a].customerId != r[b].customerId)
  {
    var r := LegacyStorage(dates, bytes);
    var sites := Cross(CustomerNumbers(), SiteLabels());
    var cells := Cross(sites, dates);
    CrossLength(CustomerNumbers(), SiteLabels());
    CrossAt(CustomerNumbers(), SiteLabels(), 0, 0);
    CrossAt(CustomerNumbers(), SiteLabels(), 1, 0);
    CrossAt(sites, dates, 0, 0);
    CrossAt(sites, dates, SitesPerCustomer, 0);
    var b := SitesPerCustomer * |dates|;
    assert r[0].customerId == 1 && r[b].customerId == 2;
    assert StorageKey(r[0]) == StorageKey(r[b]);
  }

  // ---------------------------------------------------------------------------
  // 4. Users

  /** A legacy user row: no site and no license type. */
  datatype LegacyUserRow = LegacyUserRow(customerId: CustomerId, userEmail: string, registrationDate: Date)

  /** The Faker e-mail and registration date of one user. */
  datatype UserDraw = UserDraw(email: string, registrationDate: Date)

  /** Five users per customer, customers in order; `draws[k]` are the Faker
      values of row `k`. */
  function LegacyUsers(draws: seq<UserDraw>): (r: seq<LegacyUserRow>)
    requires |draws| == LegacyCustomers * UsersPerCustomer
    ensures |r| == |draws|
    ensures forall k :: 0 <= k < |r| ==>
      && 1 <= r[k].customerId <= LegacyCustomers
      && r[k].userEmail == draws[k].email
      && r[k].registrationDate == draws[k].registrationDate
  {
    var cells := Cross(CustomerNumbers(), Range(1, UsersPerCustomer + 1));
    CrossLength(CustomerNumbers(), Range(1, UsersPerCustomer + 1));
    CrossMembers(CustomerNumbers(), Range(1, UsersPerCustomer + 1));
    RangeMember(1, LegacyCustomers + 1);
    var r := seq(|cells|, k requires 0 <= k < |cells| =>
      LegacyUserRow(cells[k].0, draws[k].email, draws[k].registrationDate));
    assert forall k :: 0 <= k < |r| ==> cells[k] in cells;
    r
  }

  /** Row `k` of the user table belongs to customer `k / 5 + 1`. */
  lemma LegacyUserOwner(draws: seq<UserDraw>, k: nat)
    requires |draws| == LegacyCustomers * UsersPerCustomer
    requires k < |draws|
    ensures LegacyUsers(draws)[k].customerId == k / UsersPerCustomer + 1
  {
    var users := Range(1, UsersPerCustomer + 1);
    CrossAt(CustomerNumbers(), users, k / UsersPerCustomer, k % UsersPerCustomer);
  }

  /** `users_df[users_df['customer_id'] == id]['user_email'].tolist()`: the
      e-mails of the customer's user rows in table order. */
  function EmailsOf(users: seq<LegacyUserRow>, id: CustomerId): (r: seq<string>)
    ensures forall e :: e in r <==> exists u :: u in users && u.customerId == id && u.userEmail == e
  {
    if |users| == 0 then []
    else
      var init := users[..|users| - 1];
      var last := users[|users| - 1];
      assert users == init + [last];
      EmailsOf(init, id) + (if last.customerId == id then [last.userEmail] else [])
  }

  /** The e-mails drawn for customer `c`: rows `5 (c - 1)` to `5 c - 1`. */
  function DrawnEmails(draws: seq<UserDraw>, c: nat): (r: seq<string>)
    requires |draws| == LegacyCustomers * UsersPerCustomer
    requires 1 <= c <= LegacyCustomers
    ensures |r| == UsersPerCustomer
  {
    var lo := (c - 1) * UsersPerCustomer;
    seq(UsersPerCustomer, i requires 0 <= i < UsersPerCustomer => draws[lo + i].email)
  }

  /** Each customer has exactly five users, the five drawn for it, in draw
      order: the e-mail list the activity loop reads back for customer `c`. */
  lemma LegacyUsersPerCustomer(draws: seq<UserDraw>, c: nat)
    requires |draws| == LegacyCustomers * UsersPerCustomer
    requires 1 <= c <= LegacyCustomers
    ensures EmailsOf(LegacyUsers(draws), c) == DrawnEmails(draws, c)
    ensures |EmailsOf(LegacyUsers(draws), c)| == UsersPerCustomer
  {
    var users := LegacyUsers(draws);
    forall k | 0 <= k < |users| ensures users[k].customerId == k / UsersPerCustomer + 1 {
      LegacyUserOwner(draws, k);
    }
    var lo := (c - 1) * UsersPerCustomer;
    var hi := c * UsersPerCustomer;
    EmailsOfPrefix(users, c, |users|);
    assert users[..|users|] == users;
    assert EmailColumn(users, lo, hi) == DrawnEmails(draws, c);
  }

  /** The e-mails of user rows `lo` to `hi - 1`. */
  function EmailColumn(users: seq<LegacyUserRow>, lo: nat, hi: nat): (r: seq<string>)
    requires lo <= hi <= |users|
    ensures |r| == hi - lo && forall i :: 0 <= i < hi - lo ==> r[i] == users[lo + i].userEmail
  {
    seq(hi - lo, i requires 0 <= i < hi - lo => users[lo + i].userEmail)
  }

  /** In a user table whose row `k` belongs to customer `k / 5 + 1`, the
      e-mails of customer `c` among the first `n` rows are those of rows
      `5 (c - 1)` up to `min(n, 5 c)`. */
  lemma {:induction false} EmailsOfPrefix(users: seq<LegacyUserRow>, c: nat, n: nat)
    requires forall k :: 0 <= k < |users| ==> users[k].customerId == k / UsersPerCustomer + 1
    requires 1 <= c && n <= |users|
    ensures var lo := (c - 1) * UsersPerCustomer;
      var hi := if n < c * UsersPerCustomer then n else c * UsersPerCustomer;
      EmailsOf(users[..n], c) == if n <= lo then [] else EmailColumn(users, lo, hi)
  {
    if n > 0 {
      var lo := (c - 1) * UsersPerCustomer;
      var u := users[n - 1];
      EmailsOfPrefix(users, c, n - 1);
      assert users[..n][..n - 1] == users[..n - 1];
      assert EmailsOf(users[..n], c)
        == EmailsOf(users[..n - 1], c) + (if u.customerId == c then [u.userEmail] else []);
      assert u.customerId == c <==> lo < n <= c * UsersPerCustomer;
      if lo < n <= c * UsersPerCustomer {
        assert EmailColumn(users, lo, n) == EmailColumn(users, lo, n - 1) + [u.userEmail];
      }
    }
  }

  // ---------------------------------------------------------------------------
  // 2. User activity

  /** One iteration of the four activity loops: a customer, a site label, a
      day and one of the customer's e-mails. */
  datatype LegacySlot = LegacySlot(customerId: CustomerId, siteId: SiteId, date: Date, userEmail: string)

  function CustomerSlots(users: seq<LegacyUserRow>, dates: seq<Date>, c: CustomerId): seq<LegacySlot>
  {
    var cells := Cross(Cross(SiteLabels(), dates), EmailsOf(users, c));
    seq(|cells|, k requires 0 <= k < |cells| => LegacySlot(c, cells[k].0.0, cells[k].0.1, cells[k].1))
  }

  /** All iterations: customers in order, then site labels, days, e-mails. */
  function LegacySlots(users: seq<LegacyUserRow>, dates: seq<Date>): seq<LegacySlot>
  {
    Flatten(LegacySlotBlocks(users, dates))
  }

  /** The iterations grouped by customer, customer `ci + 1` at `ci`. */
  function LegacySlotBlocks(users: seq<LegacyUserRow>, dates: seq<Date>): (r: seq<seq<LegacySlot>>)
    ensures |r| == LegacyCustomers
    ensures forall ci :: 0 <= ci < |r| ==> r[ci] == CustomerSlots(users, dates, ci + 1)
  {
    seq(LegacyCustomers, ci requires 0 <= ci < LegacyCustomers => CustomerSlots(users, dates, ci + 1))
  }

  /** The iterations are exactly the (customer, label, day, e-mail) tuples
      with a customer from 1 to 50, one of the three labels, a listed day and
      an e-mail of one of that customer's users. */
  lemma LegacySlotMember(users: seq<LegacyUserRow>, dates: seq<Date>, s: LegacySlot)
    ensures s in LegacySlots(users, dates) <==>
      && 1 <= s.customerId <= LegacyCustomers
      && s.siteId in SiteLabels()
      && s.date in dates
      && s.userEmail in EmailsOf(users, s.customerId)
  {
    var blocks := LegacySlotBlocks(users, dates);
    FlattenMember(blocks, s);
    CustomerSlotsMember(users, dates, s.customerId, s);
    if s in LegacySlots(users, dates) {
      var ci :| 0 <= ci < |blocks| && s in blocks[ci];
      CustomerSlotsMember(users, dates, ci + 1, s);
    }
    if 1 <= s.customerId <= LegacyCustomers {
      assert blocks[s.customerId - 1] == CustomerSlots(users, dates, s.customerId);
    }
  }

  /** The iterations of one customer: its number with each label, day and
      e-mail of its users. */
  lemma CustomerSlotsMember(users: seq<LegacyUserRow>, dates: seq<Date>, c: CustomerId, s: LegacySlot)
    ensures s in CustomerSlots(users, dates, c) <==>
      && s.customerId == c
      && s.siteId in SiteLabels()
      && s.date in dates
      && s.userEmail in EmailsOf(users, c)
  {
    var slots := CustomerSlots(users, dates, c);
    var days := Cross(SiteLabels(), dates);
    var cells := Cross(days, EmailsOf(users, c));
    CrossMember(SiteLabels(), dates, (s.siteId, s.date));
    CrossMember(days, EmailsOf(users, c), ((s.siteId, s.date), s.userEmail));
    if s in slots {
      var k :| 0 <= k < |slots| && slots[k] == s;
      assert cells[k] == ((s.siteId, s.date), s.userEmail);
    }
    if s.customerId == c && ((s.siteId, s.date), s.userEmail) in cells {
      var k :| 0 <= k < |cells| && cells[k] == ((s.siteId, s.date), s.userEmail);
      assert slots[k] == s;
    }
  }

  /** `random.randint(0, 5)` draws of `random.choice(activity_types)`. */
  predicate LegacyEventDrawOk(types: seq<nat>)
  {
    |types| <= MaxLegacyEvents && forall e :: 0 <= e < |types| ==> types[e] < |ActivityTypes|
  }

  /** The events of one iteration: one per draw, each carrying the
      iteration's customer, e-mail, label and day and the drawn type. */
  function LegacySlotEvents(s: LegacySlot, types: seq<nat>): (r: seq<Event>)
    requires LegacyEventDrawOk(types)
    ensures |r| == |types| <= MaxLegacyEvents
    ensures forall e :: 0 <= e < |r| ==>
      r[e] == Event(s.customerId, s.userEmail, s.siteId, s.date, r[e].activityType)
      && r[e].activityType == ActivityTypes[types[e]]
  {
    seq(|types|, e requires 0 <= e < |types| =>
      Event(s.customerId, s.userEmail, s.siteId, s.date, ActivityTypes[types[e]]))
  }

  function LegacyEventBlocks(slots: seq<LegacySlot>, draws: seq<seq<nat>>): (r: seq<seq<Event>>)
    requires |draws| == |slots|
    requires forall k :: 0 <= k < |draws| ==> LegacyEventDrawOk(draws[k])
    ensures |r| == |slots|
    ensures forall k :: 0 <= k < |r| ==> r[k] == LegacySlotEvents(slots[k], draws[k])
  {
    seq(|slots|, k requires 0 <= k < |slots| => LegacySlotEvents(slots[k], draws[k]))
  }

  /** The raw events: the events of each iteration in turn; `draws[k]` are the
      draws of iteration `k`. */
  function LegacyRawActivity(users: seq<LegacyUserRow>, dates: seq<Date>, draws: seq<seq<nat>>): seq<Event>
    requires |draws| == |LegacySlots(users, dates)|
    requires forall k :: 0 <= k < |draws| ==> LegacyEventDrawOk(draws[k])
  {
    Flatten(LegacyEventBlocks(LegacySlots(users, dates), draws))
  }

  /** At most five raw events per iteration, and none at all when every
      draw is `randint(0, 5) == 0`: the raw events are the iterations'
      blocks in turn, block `k` holds as many events as iteration `k` drew,
      at most five, each carrying iteration `k`'s customer, e-mail, label
      and day and a listed type. */
  lemma LegacyRawActivityBounds(users: seq<LegacyUserRow>, dates: seq<Date>, draws: seq<seq<nat>>)
    requires |draws| == |LegacySlots(users, dates)|
    requires forall k :: 0 <= k < |draws| ==> LegacyEventDrawOk(draws[k])
    ensures var slots := LegacySlots(users, dates);
      var blocks := LegacyEventBlocks(slots, draws);
      && LegacyRawActivity(users, dates, draws) == Flatten(blocks)
      && |blocks| == |slots|
      && (forall k :: 0 <= k < |blocks| ==> |blocks[k]| == |draws[k]| <= MaxLegacyEvents)
      && (forall k, e :: 0 <= k < |blocks| && 0 <= e < |blocks[k]| ==>
            && blocks[k][e] == Event(slots[k].customerId, slots[k].userEmail, slots[k].siteId,
                                     slots[k].date, blocks[k][e].activityType)
            && blocks[k][e].activityType in ActivityTypes)
    ensures |LegacyRawActivity(users, dates, draws)| <= MaxLegacyEvents * |draws|
    ensures (forall k :: 0 <= k < |draws| ==> draws[k] == []) ==> LegacyRawActivity(users, dates, draws) == []
  {
    var slots: seq<LegacySlot> := LegacySlots(users, dates);
    var blocks: seq<seq<Event>> := LegacyEventBlocks(slots, draws);
    forall k | 0 <= k < |blocks|
      ensures |blocks[k]| == |draws[k]| <= MaxLegacyEvents
      ensures forall e :: 0 <= e < |blocks[k]| ==>
        && blocks[k][e] == Event(slots[k].customerId, slots[k].userEmail, slots[k].siteId,
                                 slots[k].date, blocks[k][e].activityType)
        && blocks[k][e].activityType in ActivityTypes
    {
      assert blocks[k] == LegacySlotEvents(slots[k], draws[k]);
    }
    FlattenBounds(blocks, 0, MaxLegacyEvents);
    if forall k :: 0 <= k < |draws| ==> draws[k] == [] {
      FlattenBounds(blocks, 0, 0);
    }
  }

  /** Every raw event is by one of customers 1 to 50, at one of the three
      labels, on a listed day, of a listed type, by a user of that customer. */
  lemma LegacyRawActivityRows(users: seq<LegacyUserRow>, dates: seq<Date>, draws: seq<seq<nat>>)
    requires |draws| == |LegacySlots(users, dates)|
    requires forall k :: 0 <= k < |draws| ==> LegacyEventDrawOk(draws[k])
    ensures forall e :: e in LegacyRawActivity(users, dates, draws) ==>
      && 1 <= e.customerId <= LegacyCustomers
      && e.siteId in SiteLabels()
      && e.date in dates
      && e.activityType in ActivityTypes
      && exists u :: u in users && u.customerId == e.customerId && u.userEmail == e.userEmail
  {
    var slots := LegacySlots(users, dates);
    var blocks := LegacyEventBlocks(slots, draws);
    forall e | e in LegacyRawActivity(users, dates, draws)
      ensures 1 <= e.customerId <= LegacyCustomers
      ensures e.siteId in SiteLabels()
      ensures e.date in dates
      ensures e.activityType in ActivityTypes
      ensures exists u :: u in users && u.customerId == e.customerId && u.userEmail == e.userEmail
    {
      FlattenMember(blocks, e);
      var k :| 0 <= k < |blocks| && e in blocks[k];
      var s := slots[k];
      LegacySlotMember(users, dates, s);
      var x :| 0 <= x < |blocks[k]| && blocks[k][x] == e;
      assert blocks[k] == LegacySlotEvents(s, draws[k]);
      assert e == Event(s.customerId, s.userEmail, s.siteId, s.date, e.activityType);
    }
  }

  /** `activity_counts_df`: the raw events counted by their full
      (customer, user, site, date, type) tuple. Each tuple is a customer
      from 1 to 50 with one of its users' e-mails, one of the three labels,
      a listed day and a listed type. Each row counts the raw events with
      its tuple, the counts add up to the number of raw events, at most
      five per iteration, and there are no rows at all when no iteration
      drew an event. */
  function LegacyActivity(users: seq<LegacyUserRow>, dates: seq<Date>, draws: seq<seq<nat>>): (r: seq<ActivityRow>)
    requires |draws| == |LegacySlots(users, dates)|
    requires forall k :: 0 <= k < |draws| ==> LegacyEventDrawOk(draws[k])
    ensures forall a, b :: 0 <= a < b < |r| ==> EventOf(r[a]) != EventOf(r[b])
    ensures forall i :: 0 <= i < |r| ==>
      && 1 <= r[i].customerId <= LegacyCustomers
      && r[i].siteId in SiteLabels()
      && r[i].date in dates
      && r[i].activityType in ActivityTypes
      && r[i].eventCount >= 1
      && exists u :: u in users && u.customerId == r[i].customerId && u.userEmail == r[i].userEmail
    ensures forall i :: 0 <= i < |r| ==> r[i].eventCount == Count(LegacyRawActivity(users, dates, draws), EventOf(r[i]))
    ensures EventTotal(r) == |LegacyRawActivity(users, dates, draws)| <= MaxLegacyEvents * |draws|
    ensures (forall k :: 0 <= k < |draws| ==> draws[k] == []) ==> r == []
  {
    var raw := LegacyRawActivity(users, dates, draws);
    var r := ActivityCounts(raw);
    LegacyActivityRows(users, dates, draws);
    LegacyActivitySize(users, dates, draws);
    r
  }

  /** Every counted row is a tuple of the raw events, so it inherits their
      bounds. */
  lemma LegacyActivityRows(users: seq<LegacyUserRow>, dates: seq<Date>, draws: seq<seq<nat>>)
    requires |draws| == |LegacySlots(users, dates)|
    requires forall k :: 0 <= k < |draws| ==> LegacyEventDrawOk(draws[k])
    ensures var r := ActivityCounts(LegacyRawActivity(users, dates, draws));
      forall i :: 0 <= i < |r| ==>
        && 1 <= r[i].customerId <= LegacyCustomers
        && r[i].siteId in SiteLabels()
        && r[i].date in dates
        && r[i].activityType in ActivityTypes
        && exists u :: u in users && u.customerId == r[i].customerId && u.userEmail == r[i].userEmail
  {
    var raw := LegacyRawActivity(users, dates, draws);
    var r := ActivityCounts(raw);
    LegacyRawActivityRows(users, dates, draws);
    forall i | 0 <= i < |r|
      ensures 1 <= r[i].customerId <= LegacyCustomers
      ensures r[i].siteId in SiteLabels() && r[i].date in dates && r[i].activityType in ActivityTypes
      ensures exists u :: u in users && u.customerId == r[i].customerId && u.userEmail == r[i].userEmail
    {
      assert EventOf(r[i]) in raw;
    }
  }

  /** At most five counted events per iteration, and no counted rows when
      no iteration drew an event. */
  lemma LegacyActivitySize(users: seq<LegacyUserRow>, dates: seq<Date>, draws: seq<seq<nat>>)
    requires |draws| == |LegacySlots(users, dates)|
    requires forall k :: 0 <= k < |draws| ==> LegacyEventDrawOk(draws[k])
    ensures |LegacyRawActivity(users, dates, draws)| <= MaxLegacyEvents * |draws|
    ensures (forall k :: 0 <= k < |draws| ==> draws[k] == []) ==> ActivityCounts(LegacyRawActivity(users, dates, draws)) == []
  {
    var raw := LegacyRawActivity(users, dates, draws);
    var r := ActivityCounts(raw);
    LegacyRawActivityBounds(users, dates, draws);
    if |r| > 0 {
      assert EventTotal(r) >= 1;
    }
  }

  // ---------------------------------------------------------------------------
  // 3. Background jobs

  /** The customer a site index `1 .. 150` stands for: `(k - 1) // 3 + 1`. */
  function CustomerOfIndex(k: nat): nat
    requires k >= 1
  {
    (k - 1) / SitesPerCustomer + 1
  }

  /** The site number within its customer: `(k - 1) % 3 + 1`. */
  function SiteOfIndex(k: nat): nat
    requires k >= 1
  {
    (k - 1) % SitesPerCustomer + 1
  }

  /** The site index of site `s` of customer `c`. */
  function IndexOf(c: nat, s: nat): nat
    requires c >= 1
  {
    (c - 1) * SitesPerCustomer + s
  }

  /** Every site index names a customer from 1 to 50 and a site from 1 to 3,
      and that pair gives the index back. */
  lemma SiteIndexRoundTrip(k: nat)
    requires 1 <= k <= LegacyCustomers * SitesPerCustomer
    ensures 1 <= CustomerOfIndex(k) <= LegacyCustomers
    ensures 1 <= SiteOfIndex(k) <= SitesPerCustomer
    ensures IndexOf(CustomerOfIndex(k), SiteOfIndex(k)) == k
  {
  }

  /** Every (customer, site) pair has an index from 1 to 150 that names it
      back: the indices are in one-to-one correspondence with the pairs. */
  lemma IndexOfRoundTrip(c: nat, s: nat)
    requires 1 <= c <= LegacyCustomers && 1 <= s <= SitesPerCustomer
    ensures 1 <= IndexOf(c, s) <= LegacyCustomers * SitesPerCustomer
    ensures CustomerOfIndex(IndexOf(c, s)) == c && SiteOfIndex(IndexOf(c, s)) == s
  {
  }

  /** A legacy job row: the site label but no customer. */
  datatype LegacyJobRow = LegacyJobRow(siteId: SiteId, date: Date, jobType: string, minutes: nat)

  function LegacyJobKey(r: LegacyJobRow): (SiteId, Date, string)
  {
    (r.siteId, r.date, r.jobType)
  }

  /** The key column of a job table. */
  function LegacyJobKeys(r: seq<LegacyJobRow>): (keys: seq<(SiteId, Date, string)>)
    ensures |keys| == |r| && forall k :: 0 <= k < |r| ==> keys[k] == LegacyJobKey(r[k])
  {
    seq(|r|, k requires 0 <= k < |r| => LegacyJobKey(r[k]))
  }

  /** The site indices `1 .. 150`. */
  function SiteIndices(): seq<nat>
  {
    Range(1, LegacyCustomers * SitesPerCustomer + 1)
  }

  /** The (site index, day, job type) of each job-loop iteration. */
  function JobCells(dates: seq<Date>): seq<((nat, Date), string)>
  {
    Cross(Cross(SiteIndices(), dates), JobTypes)
  }

  /** One row per site index, day and job type, in that loop order, labelled
      with the site number only; `minutes[k]` is the `random.randint(1, 30)`
      of row `k`. */
  function LegacyJobs(dates: seq<Date>, minutes: seq<nat>): (r: seq<LegacyJobRow>)
    requires |minutes| == LegacyCustomers * SitesPerCustomer * |dates| * |JobTypes|
    requires forall k :: 0 <= k < |minutes| ==> MinJobMinutes <= minutes[k] <= MaxLegacyJobMinutes
    ensures |r| == LegacyCustomers * SitesPerCustomer * |dates| * |JobTypes|
    ensures forall k :: 0 <= k < |r| ==>
      && r[k].siteId in SiteLabels()
      && r[k].date in dates
      && r[k].jobType in JobTypes
      && r[k].minutes == minutes[k]
      && MinJobMinutes <= r[k].minutes <= MaxLegacyJobMinutes
  {
    var cells := JobCells(dates);
    JobCellsFacts(dates);
    seq(|cells|, k requires 0 <= k < |cells| =>
      LegacyJobRow(SiteLabel(SiteOfIndex(cells[k].0.0)), cells[k].0.1, cells[k].1, minutes[k]))
  }

  /** Every job-loop iteration has a site index from 1 to 150, whose label
      is one of the three, a listed day and a listed type. */
  lemma JobCellsFacts(dates: seq<Date>)
    ensures |JobCells(dates)| == LegacyCustomers * SitesPerCustomer * |dates| * |JobTypes|
    ensures forall k :: 0 <= k < |JobCells(dates)| ==>
      && 1 <= JobCells(dates)[k].0.0 <= LegacyCustomers * SitesPerCustomer
      && SiteLabel(SiteOfIndex(JobCells(dates)[k].0.0)) in SiteLabels()
      && JobCells(dates)[k].0.1 in dates
      && JobCells(dates)[k].1 in JobTypes
  {
    var days := Cross(SiteIndices(), dates);
    var cells := JobCells(dates);
    CrossLength(SiteIndices(), dates);
    CrossLength(days, JobTypes);
    CrossMembers(SiteIndices(), dates);
    CrossMembers(days, JobTypes);
    RangeMember(1, LegacyCustomers * SitesPerCustomer + 1);
    forall k | 0 <= k < |cells|
      ensures 1 <= cells[k].0.0 <= LegacyCustomers * SitesPerCustomer
      ensures SiteLabel(SiteOfIndex(cells[k].0.0)) in SiteLabels()
      ensures cells[k].0.1 in dates && cells[k].1 in JobTypes
    {
      assert cells[k] in cells && cells[k].0 in days;
      SiteLabelsMember(SiteOfIndex(cells[k].0.0));
    }
  }

  /** Position of the row of site index `k`, day `j` and job type `t`. */
  lemma LegacyJobAt(dates: seq<Date>, minutes: seq<nat>, k: nat, j: nat, t: nat) returns (pos: nat)
    requires |minutes| == LegacyCustomers * SitesPerCustomer * |dates| * |JobTypes|
    requires forall k :: 0 <= k < |minutes| ==> MinJobMinutes <= minutes[k] <= MaxLegacyJobMinutes
    requires 1 <= k <= LegacyCustomers * SitesPerCustomer && j < |dates| && t < |JobTypes|
    ensures pos < |LegacyJobs(dates, minutes)|
    ensures JobCells(dates)[pos] == ((k, dates[j]), JobTypes[t])
    ensures LegacyJobKey(LegacyJobs(dates, minutes)[pos]) == (SiteLabel(SiteOfIndex(k)), dates[j], JobTypes[t])
  {
    var days := Cross(SiteIndices(), dates);
    CrossLength(SiteIndices(), dates);
    CrossAt(SiteIndices(), dates, k - 1, j);
    var d := (k - 1) * |dates| + j;
    CrossAt(days, JobTypes, d, t);
    pos := d * |JobTypes| + t;
  }

  /** Every site index has a row for every day and job type, labelled with
      its site number. */
  lemma LegacyJobsCover(dates: seq<Date>, minutes: seq<nat>)
    requires |minutes| == LegacyCustomers * SitesPerCustomer * |dates| * |JobTypes|
    requires forall k :: 0 <= k < |minutes| ==> MinJobMinutes <= minutes[k] <= MaxLegacyJobMinutes
    ensures var r := LegacyJobs(dates, minutes);
      forall k, j, typ :: 1 <= k <= LegacyCustomers * SitesPerCustomer && 0 <= j < |dates| && typ in JobTypes ==>
        (SiteLabel(SiteOfIndex(k)), dates[j], typ) in LegacyJobKeys(r)
  {
    var r := LegacyJobs(dates, minutes);
    forall k, j, typ | 1 <= k <= LegacyCustomers * SitesPerCustomer && 0 <= j < |dates| && typ in JobTypes
      ensures (SiteLabel(SiteOfIndex(k)), dates[j], typ) in LegacyJobKeys(r)
    {
      var t :| 0 <= t < |JobTypes| && JobTypes[t] == typ;
      var pos := LegacyJobAt(dates, minutes, k, j, t);
      assert LegacyJobKeys(r)[pos] == (SiteLabel(SiteOfIndex(k)), dates[j], typ);
    }
  }

  /** The job rows of two customers' sites with the same number cannot be
      told apart: for any two customers, any site number, day and job type,
      two different rows carry the same (site_id, date, type) key. */
  lemma LegacyJobKeysCollide(dates: seq<Date>, minutes: seq<nat>, c1: nat, c2: nat, s: nat, j: nat, t: nat)
    requires |minutes| == LegacyCustomers * SitesPerCustomer * |dates| * |JobTypes|
    requires forall k :: 0 <= k < |minutes| ==> MinJobMinutes <= minutes[k] <= MaxLegacyJobMinutes
    requires 1 <= c1 < c2 <= LegacyCustomers && 1 <= s <= SitesPerCustomer
    requires j < |dates| && t < |JobTypes|
    ensures var r := LegacyJobs(dates, minutes);
      exists a, b :: (0 <= a < |r| && 0 <= b < |r| && a != b
                      && LegacyJobKey(r[a]) == LegacyJobKey(r[b]) == (SiteLabel(s), dates[j], JobTypes[t]))
  {
    IndexOfRoundTrip(c1, s);
    IndexOfRoundTrip(c2, s);
    var a := LegacyJobAt(dates, minutes, IndexOf(c1, s), j, t);
    var b := LegacyJobAt(dates, minutes, IndexOf(c2, s), j, t);
    assert JobCells(dates)[a] != JobCells(dates)[b];
  }
}
