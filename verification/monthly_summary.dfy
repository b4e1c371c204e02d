/**
 The monthly site roll-up (`02-unify/build_monthly_summary.py`): day-grain
 storage, background-job and activity rows are bucketed by calendar month,
 summed per (site_id, month), left-joined onto the activity aggregate with
 missing measures filled with 0, and decorated with site, customer and
 per-site license-type counts.
 */
module MonthlySummary {
  import opened Common
  import opened Tables
  import opened GroupBy
  import opened Join

  /** The grain of the roll-up: (site_id, month). */
  type Key = (SiteId, Month)

  // ---------------------------------------------------------------------------
  // Month bucketing

  /** A day-grain table reduced to its (site_id, month) key and the column to
      be summed: the `month` column added by `to_period('M')`, then the
      columns a `groupby(['site_id', 'month'])[col]` reads. */
  function MonthKeyed<T>(rows: seq<T>, site: T -> SiteId, date: T -> Date, val: T -> nat)
    : (r: seq<(Key, nat)>)
    ensures |r| == |rows|
  {
    if |rows| == 0 then []
    else
      var last := rows[|rows| - 1];
      MonthKeyed(rows[..|rows| - 1], site, date, val) + [((site(last), MonthOf(date(last))), val(last))]
  }

  /** Reference: the sum of `val` over the rows of site `s` dated in month `m`. */
  function SumIn<T>(rows: seq<T>, site: T -> SiteId, date: T -> Date, val: T -> nat, s: SiteId, m: Month): nat
  {
    if |rows| == 0 then 0
    else
      var last := rows[|rows| - 1];
      SumIn(rows[..|rows| - 1], site, date, val, s, m)
        + (if site(last) == s && InMonth(date(last), m) then val(last) else 0)
  }

  /** Some row of site `s` is dated in month `m`. */
  predicate AnyIn<T>(rows: seq<T>, site: T -> SiteId, date: T -> Date, s: SiteId, m: Month)
  {
    exists i :: 0 <= i < |rows| && site(rows[i]) == s && InMonth(date(rows[i]), m)
  }

  /** The month bucket of a row is exactly the (year, month) of its date: the
      keyed column sums, per (site, month), exactly the rows of that site
      dated in that calendar month, and its keys are exactly the (site,
      month) pairs that have such a row. */
  lemma {:induction false} MonthKeyedSums<T>(rows: seq<T>, site: T -> SiteId, date: T -> Date, val: T -> nat)
    ensures forall k: Key :: SumFor(MonthKeyed(rows, site, date, val), k) == SumIn(rows, site, date, val, k.0, k.1)
    ensures forall k: Key :: k in KeysOf(MonthKeyed(rows, site, date, val)) <==> AnyIn(rows, site, date, k.0, k.1)
  {
    MonthKeyedSumFor(rows, site, date, val);
    MonthKeyedKeys(rows, site, date, val);
  }

  lemma {:induction false} MonthKeyedSumFor<T>(rows: seq<T>, site: T -> SiteId, date: T -> Date, val: T -> nat)
    ensures forall k: Key :: SumFor(MonthKeyed(rows, site, date, val), k) == SumIn(rows, site, date, val, k.0, k.1)
  {
    if |rows| > 0 {
      var init := rows[..|rows| - 1];
      MonthKeyedSumFor(init, site, date, val);
      assert MonthKeyed(rows, site, date, val)[..|rows| - 1] == MonthKeyed(init, site, date, val);
    }
  }

  lemma {:induction false} MonthKeyedKeys<T>(rows: seq<T>, site: T -> SiteId, date: T -> Date, val: T -> nat)
    ensures forall k: Key :: k in KeysOf(MonthKeyed(rows, site, date, val)) <==> AnyIn(rows, site, date, k.0, k.1)
  {
    var keyed := MonthKeyed(rows, site, date, val);
    if |rows| > 0 {
      var init := rows[..|rows| - 1];
      var last := rows[|rows| - 1];
      var x := ((site(last), MonthOf(date(last))), val(last));
      MonthKeyedKeys(init, site, date, val);
      assert keyed == MonthKeyed(init, site, date, val) + [x];
      KeysOfSnoc(MonthKeyed(init, site, date, val), x);
      forall k: Key
        ensures k in KeysOf(keyed) <==> AnyIn(rows, site, date, k.0, k.1)
      {
        if AnyIn(rows, site, date, k.0, k.1) {
          var i :| 0 <= i < |rows| && site(rows[i]) == k.0 && InMonth(date(rows[i]), k.1);
          if i < |rows| - 1 {
            assert init[i] == rows[i];
            assert AnyIn(init, site, date, k.0, k.1);
          }
        }
        if AnyIn(init, site, date, k.0, k.1) {
          var i :| 0 <= i < |init| && site(init[i]) == k.0 && InMonth(date(init[i]), k.1);
          assert rows[i] == init[i];
        }
      }
    } else {
      assert keyed == [];
      forall k: Key ensures k !in KeysOf(keyed) {}
    }
  }

  /** Bytes stored by site `s` over the days of month `m`. */
  function BytesIn(storage: seq<StorageRow>, s: SiteId, m: Month): nat
  {
    SumIn(storage, StorageSite, StorageDate, StorageBytes, s, m)
  }

  predicate HasStorage(storage: seq<StorageRow>, s: SiteId, m: Month)
  {
    AnyIn(storage, StorageSite, StorageDate, s, m)
  }

  /** Background-job minutes of site `s` over the days of month `m`. */
  function MinutesIn(jobs: seq<JobRow>, s: SiteId, m: Month): nat
  {
    SumIn(jobs, JobSite, JobDate, JobMinutes, s, m)
  }

  predicate HasJobs(jobs: seq<JobRow>, s: SiteId, m: Month)
  {
    AnyIn(jobs, JobSite, JobDate, s, m)
  }

  /** Events counted for site `s` over the days of month `m`. */
  function EventsIn(activity: seq<ActivityRow>, s: SiteId, m: Month): nat
  {
    SumIn(activity, ActivitySite, ActivityDate, ActivityEvents, s, m)
  }

  predicate HasActivity(activity: seq<ActivityRow>, s: SiteId, m: Month)
  {
    AnyIn(activity, ActivitySite, ActivityDate, s, m)
  }

  // ---------------------------------------------------------------------------
  // The three monthly aggregates

  /** `activity.groupby(['site_id', 'month'])['event_count'].sum()`. */
  function ActivityAgg(activity: seq<ActivityRow>): (r: seq<(Key, nat)>)
    ensures UniqueKeys(r)
    ensures forall k: Key :: k in KeysOf(r) <==> HasActivity(activity, k.0, k.1)
    ensures forall i :: 0 <= i < |r| ==> r[i].1 == EventsIn(activity, r[i].0.0, r[i].0.1)
  {
    var keyed := MonthKeyed(activity, ActivitySite, ActivityDate, ActivityEvents);
    MonthKeyedSums(activity, ActivitySite, ActivityDate, ActivityEvents);
    GroupSumRows(keyed);
    GroupSum(keyed)
  }

  /** `jobs.groupby(['site_id', 'month'])['background_job_min'].sum()`. */
  function JobsAgg(jobs: seq<JobRow>): (r: seq<(Key, nat)>)
    ensures UniqueKeys(r)
    ensures forall k: Key :: k in KeysOf(r) <==> HasJobs(jobs, k.0, k.1)
    ensures forall i :: 0 <= i < |r| ==> r[i].1 == MinutesIn(jobs, r[i].0.0, r[i].0.1)
  {
    var keyed := MonthKeyed(jobs, JobSite, JobDate, JobMinutes);
    MonthKeyedSums(jobs, JobSite, JobDate, JobMinutes);
    GroupSumRows(keyed);
    GroupSum(keyed)
  }

  /** `storage.groupby(['site_id', 'month'])['storage_bytes'].sum()`: the
      exact byte sums, before any conversion. */
  function StorageBytesAgg(storage: seq<StorageRow>): (r: seq<(Key, nat)>)
    ensures UniqueKeys(r)
    ensures forall k: Key :: k in KeysOf(r) <==> HasStorage(storage, k.0, k.1)
    ensures forall i :: 0 <= i < |r| ==> r[i].1 == BytesIn(storage, r[i].0.0, r[i].0.1)
  {
    var keyed := MonthKeyed(storage, StorageSite, StorageDate, StorageBytes);
    MonthKeyedSums(storage, StorageSite, StorageDate, StorageBytes);
    GroupSumRows(keyed);
    GroupSum(keyed)
  }

  /** The storage aggregate with each byte sum replaced by its GiB figure
      (`(bytes / 1024**3).round(2)`, supplied as `toGb`); the byte column is
      dropped. */
  function StorageAgg(storage: seq<StorageRow>, toGb: nat -> real): (r: seq<(Key, real)>)
    ensures UniqueKeys(r)
    ensures forall k: Key :: k in KeysOf(r) <==> HasStorage(storage, k.0, k.1)
    ensures forall i :: 0 <= i < |r| ==> r[i].1 == toGb(BytesIn(storage, r[i].0.0, r[i].0.1))
  {
    var bytes := StorageBytesAgg(storage);
    var r := seq(|bytes|, i requires 0 <= i < |bytes| => (bytes[i].0, toGb(bytes[i].1)));
    SameKeys(bytes, r);
    r
  }

  /** A key is in an aggregate with unique keys exactly when a join on it
      finds a row, and the row found carries that key. */
  lemma FindKey<V>(agg: seq<(Key, V)>, k: Key)
    requires UniqueKeys(agg)
    ensures UniqueBy(agg, Fst)
    ensures FindBy(agg, Fst, k).Some? <==> k in KeysOf(agg)
    ensures FindBy(agg, Fst, k).Some? ==> FindBy(agg, Fst, k).value.0 == k
  {
    if k in KeysOf(agg) {
      var i :| 0 <= i < |agg| && agg[i].0 == k;
      assert Fst(agg[i]) == k;
    }
  }

  // ---------------------------------------------------------------------------
  // Left-joining the measures onto the activity aggregate

  /** The measures of one (site_id, month) of the summary. */
  datatype MonthlyRow = MonthlyRow(
    siteId: SiteId,
    month: Month,
    eventCount: nat,
    storageGb: real,
    jobMinutes: nat)

  function ActivityKey(x: ((Key, nat), Option<(Key, real)>)): Key
  {
    x.0.0
  }

  /** `fillna(0)` on `storage_gb`. */
  function FillGb(o: Option<(Key, real)>): real
  {
    if o.Some? then o.value.1 else 0.0
  }

  /** `fillna(0)` on `background_job_min`. */
  function FillMinutes(o: Option<(Key, nat)>): nat
  {
    if o.Some? then o.value.1 else 0
  }

  function Measures(x: (((Key, nat), Option<(Key, real)>), Option<(Key, nat)>)): MonthlyRow
  {
    MonthlyRow(x.0.0.0.0, x.0.0.0.1, x.0.0.1, FillGb(x.0.1), FillMinutes(x.1))
  }

  function RowKeys(rows: seq<MonthlyRow>): set<Key>
  {
    set i | 0 <= i < |rows| :: (rows[i].siteId, rows[i].month)
  }

  /** The activity aggregate is the base table; storage and job aggregates
      are left-joined on (site_id, month) and their gaps filled with 0. With
      aggregates whose keys are unique, every activity row yields exactly one
      row, in order, whose measure equals the matched aggregate's value or 0
      when there is no match. */
  function MergeMeasures(act: seq<(Key, nat)>, sto: seq<(Key, real)>, jobs: seq<(Key, nat)>)
    : (r: seq<MonthlyRow>)
    ensures UniqueKeys(sto) && UniqueKeys(jobs) ==>
      |r| == |act| &&
      forall i :: 0 <= i < |act| ==>
        && r[i].siteId == act[i].0.0 && r[i].month == act[i].0.1 && r[i].eventCount == act[i].1
        && (act[i].0 in KeysOf(sto) ==> (act[i].0, r[i].storageGb) in sto)
        && (act[i].0 !in KeysOf(sto) ==> r[i].storageGb == 0.0)
        && (act[i].0 in KeysOf(jobs) ==> (act[i].0, r[i].jobMinutes) in jobs)
        && (act[i].0 !in KeysOf(jobs) ==> r[i].jobMinutes == 0)
  {
    var withStorage := LeftJoin(act, sto, Fst, Fst);
    var withJobs := LeftJoin(withStorage, jobs, ActivityKey, Fst);
    var r := seq(|withJobs|, i requires 0 <= i < |withJobs| => Measures(withJobs[i]));
    MergedRows(act, sto, jobs, withStorage, withJobs, r);
    r
  }

  lemma {:induction false} MergedRows(act: seq<(Key, nat)>, sto: seq<(Key, real)>, jobs: seq<(Key, nat)>,
                   withStorage: seq<((Key, nat), Option<(Key, real)>)>,
                   withJobs: seq<(((Key, nat), Option<(Key, real)>), Option<(Key, nat)>)>, r: seq<MonthlyRow>)
    requires withStorage == LeftJoin(act, sto, Fst, Fst)
    requires withJobs == LeftJoin(withStorage, jobs, ActivityKey, Fst)
    requires |r| == |withJobs|
    requires forall i :: 0 <= i < |r| ==> r[i] == Measures(withJobs[i])
    ensures UniqueKeys(sto) && UniqueKeys(jobs) ==>
      forall i :: 0 <= i < |act| ==>
        && (act[i].0 in KeysOf(sto) ==> (act[i].0, r[i].storageGb) in sto)
        && (act[i].0 !in KeysOf(sto) ==> r[i].storageGb == 0.0)
        && (act[i].0 in KeysOf(jobs) ==> (act[i].0, r[i].jobMinutes) in jobs)
        && (act[i].0 !in KeysOf(jobs) ==> r[i].jobMinutes == 0)
  {
    if UniqueKeys(sto) && UniqueKeys(jobs) {
      forall i | 0 <= i < |act|
        ensures act[i].0 in KeysOf(sto) ==> (act[i].0, r[i].storageGb) in sto
        ensures act[i].0 !in KeysOf(sto) ==> r[i].storageGb == 0.0
        ensures act[i].0 in KeysOf(jobs) ==> (act[i].0, r[i].jobMinutes) in jobs
        ensures act[i].0 !in KeysOf(jobs) ==> r[i].jobMinutes == 0
      {
        MergedRow(act, sto, jobs, withStorage, withJobs, i);
      }
    }
  }

  /** The merged row at `i` carries the activity row's key and count and the
      measures found for that key, or 0. */
  lemma {:induction false} MergedRow(act: seq<(Key, nat)>, sto: seq<(Key, real)>, jobs: seq<(Key, nat)>,
                  withStorage: seq<((Key, nat), Option<(Key, real)>)>,
                  withJobs: seq<(((Key, nat), Option<(Key, real)>), Option<(Key, nat)>)>, i: nat)
    requires UniqueKeys(sto) && UniqueKeys(jobs)
    requires withStorage == LeftJoin(act, sto, Fst, Fst)
    requires withJobs == LeftJoin(withStorage, jobs, ActivityKey, Fst)
    requires i < |act|
    ensures |withStorage| == |act| && |withJobs| == |act|
    ensures var m := Measures(withJobs[i]);
      && (act[i].0 in KeysOf(sto) ==> (act[i].0, m.storageGb) in sto)
      && (act[i].0 !in KeysOf(sto) ==> m.storageGb == 0.0)
      && (act[i].0 in KeysOf(jobs) ==> (act[i].0, m.jobMinutes) in jobs)
      && (act[i].0 !in KeysOf(jobs) ==> m.jobMinutes == 0)
  {
    FindKey(sto, act[i].0);
    FindKey(jobs, act[i].0);
    assert withStorage[i] == (act[i], FindBy(sto, Fst, act[i].0));
    assert withJobs[i] == (withStorage[i], FindBy(jobs, Fst, act[i].0));
  }

  /** Whatever the aggregates hold, the merged rows carry exactly the keys
      of the activity aggregate: a (site, month) with storage or job data
      but no activity is dropped, and no activity key is lost. */
  lemma MergeMeasuresKeys(act: seq<(Key, nat)>, sto: seq<(Key, real)>, jobs: seq<(Key, nat)>)
    ensures RowKeys(MergeMeasures(act, sto, jobs)) == KeysOf(act)
  {
    MergedKeysFromActivity(act, sto, jobs);
    ActivityKeysMerged(act, sto, jobs);
  }

  lemma MergedKeysFromActivity(act: seq<(Key, nat)>, sto: seq<(Key, real)>, jobs: seq<(Key, nat)>)
    ensures RowKeys(MergeMeasures(act, sto, jobs)) <= KeysOf(act)
  {
    var withStorage := LeftJoin(act, sto, Fst, Fst);
    var withJobs := LeftJoin(withStorage, jobs, ActivityKey, Fst);
    var r := MergeMeasures(act, sto, jobs);
    LeftJoinRows(act, sto, Fst, Fst);
    LeftJoinRows(withStorage, jobs, ActivityKey, Fst);
    forall k | k in RowKeys(r) ensures k in KeysOf(act) {
      var i :| 0 <= i < |r| && (r[i].siteId, r[i].month) == k;
      assert withJobs[i] in withJobs;
      assert withJobs[i].0 in withStorage;
      var a := withJobs[i].0.0;
      assert a in act;
      var j :| 0 <= j < |act| && act[j] == a;
      assert act[j].0 == k;
    }
  }

  lemma ActivityKeysMerged(act: seq<(Key, nat)>, sto: seq<(Key, real)>, jobs: seq<(Key, nat)>)
    ensures KeysOf(act) <= RowKeys(MergeMeasures(act, sto, jobs))
  {
    var withStorage := LeftJoin(act, sto, Fst, Fst);
    var withJobs := LeftJoin(withStorage, jobs, ActivityKey, Fst);
    var r := MergeMeasures(act, sto, jobs);
    LeftJoinKeepsLeft(act, sto, Fst, Fst);
    LeftJoinKeepsLeft(withStorage, jobs, ActivityKey, Fst);
    forall k | k in KeysOf(act) ensures k in RowKeys(r) {
      var j :| 0 <= j < |act| && act[j].0 == k;
      assert act[j] in act;
      var o1 :| o1 in withStorage && o1.0 == act[j];
      var o2 :| o2 in withJobs && o2.0 == o1;
      var i :| 0 <= i < |withJobs| && withJobs[i] == o2;
      assert (r[i].siteId, r[i].month) == k;
    }
  }

  // ---------------------------------------------------------------------------
  // License-type breakdown per site

  /** One row of the `unstack`ed license pivot: a site and, per license-type
      column, the number of its user rows holding that type. */
  datatype LicenseRow = LicenseRow(siteId: SiteId, counts: seq<(string, nat)>)

  function LicenseSite(l: LicenseRow): SiteId
  {
    l.siteId
  }

  /** Reference: the user rows of site `s` holding license type `l`. */
  function UsersWith(users: seq<UserRow>, s: SiteId, l: string): nat
  {
    if |users| == 0 then 0
    else
      var u := users[|users| - 1];
      UsersWith(users[..|users| - 1], s, l) + (if u.siteId == s && u.licenseType == l then 1 else 0)
  }

  /** Reference: site `s`'s count under each license-type column. */
  function Breakdown(users: seq<UserRow>, s: SiteId, cols: seq<string>): (r: seq<(string, nat)>)
    ensures |r| == |cols|
    ensures forall c :: 0 <= c < |cols| ==> r[c] == (cols[c], UsersWith(users, s, cols[c]))
  {
    if |cols| == 0 then []
    else [(cols[0], UsersWith(users, s, cols[0]))] + Breakdown(users, s, cols[1..])
  }

  /** The `(site_id, license_type)` columns the pivot groups by. */
  function SiteLicenses(users: seq<UserRow>): (r: seq<(SiteId, string)>)
    ensures |r| == |users|
  {
    if |users| == 0 then []
    else
      var u := users[|users| - 1];
      SiteLicenses(users[..|users| - 1]) + [(u.siteId, u.licenseType)]
  }

  function UserSites(users: seq<UserRow>): (r: seq<SiteId>)
    ensures |r| == |users|
    ensures forall i :: 0 <= i < |users| ==> r[i] == users[i].siteId
  {
    if |users| == 0 then [] else UserSites(users[..|users| - 1]) + [users[|users| - 1].siteId]
  }

  function UserLicenses(users: seq<UserRow>): (r: seq<string>)
    ensures |r| == |users|
    ensures forall i :: 0 <= i < |users| ==> r[i] == users[i].licenseType
  {
    if |users| == 0 then [] else UserLicenses(users[..|users| - 1]) + [users[|users| - 1].licenseType]
  }

  lemma {:induction false} SiteLicensesCount(users: seq<UserRow>, s: SiteId, l: string)
    ensures Count(SiteLicenses(users), (s, l)) == UsersWith(users, s, l)
  {
    if |users| > 0 {
      var init := users[..|users| - 1];
      SiteLicensesCount(init, s, l);
      assert SiteLicenses(users)[..|users| - 1] == SiteLicenses(init);
    }
  }

  lemma {:induction false} UserSitesCount(users: seq<UserRow>, s: SiteId)
    ensures Count(UserSites(users), s) == UsersAt(users, s)
  {
    if |users| > 0 {
      var init := users[..|users| - 1];
      UserSitesCount(init, s);
      assert UserSites(users)[..|users| - 1] == UserSites(init);
    }
  }

  /** The license-type columns of the pivot: every type held by some user
      row, once each. */
  function LicenseColumns(users: seq<UserRow>): (r: seq<string>)
    ensures Distinct(r)
    ensures forall l :: l in r <==> l in UserLicenses(users)
  {
    DistinctValues(UserLicenses(users))
  }

  /** One pivot row's counts, read off the `(site, license)` sizes with
      `fill_value=0`. */
  function PivotCounts(sizes: seq<((SiteId, string), nat)>, s: SiteId, cols: seq<string>)
    : (r: seq<(string, nat)>)
    ensures |r| == |cols|
  {
    if |cols| == 0 then []
    else [(cols[0], ValueOf(sizes, (s, cols[0])))] + PivotCounts(sizes, s, cols[1..])
  }

  lemma {:induction false} PivotIsBreakdown(users: seq<UserRow>, s: SiteId, cols: seq<string>)
    ensures PivotCounts(GroupCount(SiteLicenses(users)), s, cols) == Breakdown(users, s, cols)
  {
    if |cols| > 0 {
      SiteLicensesCount(users, s, cols[0]);
      PivotIsBreakdown(users, s, cols[1..]);
    }
  }

  /** The pivot has a row for site `s`. */
  predicate HasLicenseRow(rows: seq<LicenseRow>, s: SiteId)
  {
    exists i :: 0 <= i < |rows| && rows[i].siteId == s
  }

  /** The pivot rows for the given sites, counts read from `sizes`. */
  function PivotRows(sizes: seq<((SiteId, string), nat)>, sites: seq<(SiteId, nat)>, cols: seq<string>)
    : (r: seq<LicenseRow>)
    ensures |r| == |sites|
    ensures forall i :: 0 <= i < |r| ==> r[i].siteId == sites[i].0 && r[i].counts == PivotCounts(sizes, sites[i].0, cols)
  {
    seq(|sites|, i requires 0 <= i < |sites| => LicenseRow(sites[i].0, PivotCounts(sizes, sites[i].0, cols)))
  }

  /** `users.groupby(['site_id', 'license_type']).size().unstack(fill_value=0)`:
      one row per site that has user rows, whose count under each license
      type is the number of that site's user rows holding it. */
  function UserAgg(users: seq<UserRow>): (r: seq<LicenseRow>)
    ensures UniqueBy(r, LicenseSite)
    ensures forall i :: 0 <= i < |r| ==> UsersAt(users, r[i].siteId) > 0
    ensures forall j :: 0 <= j < |users| ==> HasLicenseRow(r, users[j].siteId)
    ensures forall i :: 0 <= i < |r| ==> r[i].counts == Breakdown(users, r[i].siteId, LicenseColumns(users))
  {
    var sites := GroupCount(UserSites(users));
    var r := PivotRows(GroupCount(SiteLicenses(users)), sites, LicenseColumns(users));
    PivotRowsUnique(sites, r);
    PivotRowsPopulated(users, r);
    PivotRowsComplete(users, sites, r);
    PivotRowsCounts(users, r, LicenseColumns(users));
    r
  }

  lemma PivotRowsUnique(sites: seq<(SiteId, nat)>, r: seq<LicenseRow>)
    requires UniqueKeys(sites)
    requires |r| == |sites| && forall i :: 0 <= i < |r| ==> r[i].siteId == sites[i].0
    ensures UniqueBy(r, LicenseSite)
  {
    forall i, j | 0 <= i < j < |r| ensures LicenseSite(r[i]) != LicenseSite(r[j]) {
      assert r[i].siteId == sites[i].0 && r[j].siteId == sites[j].0;
    }
  }

  lemma PivotRowsPopulated(users: seq<UserRow>, r: seq<LicenseRow>)
    requires r == PivotRows(GroupCount(SiteLicenses(users)), GroupCount(UserSites(users)), LicenseColumns(users))
    ensures forall i :: 0 <= i < |r| ==> UsersAt(users, r[i].siteId) > 0
  {
    var sites := GroupCount(UserSites(users));
    forall i | 0 <= i < |r| ensures UsersAt(users, r[i].siteId) > 0 {
      assert sites[i].1 >= 1;
      UserSitesCount(users, sites[i].0);
    }
  }

  lemma PivotRowsComplete(users: seq<UserRow>, sites: seq<(SiteId, nat)>, r: seq<LicenseRow>)
    requires KeysOf(sites) == set x | x in UserSites(users)
    requires |r| == |sites| && forall i :: 0 <= i < |r| ==> r[i].siteId == sites[i].0
    ensures forall j :: 0 <= j < |users| ==> HasLicenseRow(r, users[j].siteId)
  {
    forall j | 0 <= j < |users| ensures HasLicenseRow(r, users[j].siteId) {
      var s := users[j].siteId;
      assert UserSites(users)[j] == s;
      assert s in KeysOf(sites);
      var i :| 0 <= i < |sites| && sites[i].0 == s;
      assert r[i].siteId == s;
    }
  }

  lemma PivotRowsCounts(users: seq<UserRow>, r: seq<LicenseRow>, cols: seq<string>)
    requires forall i :: 0 <= i < |r| ==> r[i].counts == PivotCounts(GroupCount(SiteLicenses(users)), r[i].siteId, cols)
    ensures forall i :: 0 <= i < |r| ==> r[i].counts == Breakdown(users, r[i].siteId, cols)
  {
    forall i | 0 <= i < |r| ensures r[i].counts == Breakdown(users, r[i].siteId, cols) {
      PivotIsBreakdown(users, r[i].siteId, cols);
    }
  }

  lemma {:induction false} UsersAtPositive(users: seq<UserRow>, s: SiteId)
    ensures UsersAt(users, s) > 0 <==> exists j :: 0 <= j < |users| && users[j].siteId == s
  {
    if |users| > 0 {
      var init := users[..|users| - 1];
      UsersAtPositive(init, s);
      if exists j :: 0 <= j < |users| && users[j].siteId == s {
        var j :| 0 <= j < |users| && users[j].siteId == s;
        if j < |users| - 1 { assert init[j] == users[j]; }
      }
      if exists j :: 0 <= j < |init| && init[j].siteId == s {
        var j :| 0 <= j < |init| && init[j].siteId == s;
        assert users[j] == init[j];
      }
    }
  }

  lemma {:induction false} BreakdownOfEmpty(s: SiteId, cols: seq<string>)
    ensures Total(Breakdown([], s, cols)) == 0
  {
    if |cols| > 0 {
      BreakdownOfEmpty(s, cols[1..]);
    }
  }

  /** How many of the columns a user row of site `s` is counted under:
      those equal to its license type. */
  function Hits(u: UserRow, s: SiteId, cols: seq<string>): nat
  {
    if |cols| == 0 then 0
    else (if u.siteId == s && u.licenseType == cols[0] then 1 else 0) + Hits(u, s, cols[1..])
  }

  /** Adding one user row adds to the site's total over the columns the
      number of columns the row is counted under. */
  lemma {:induction false} BreakdownStep(users: seq<UserRow>, u: UserRow, s: SiteId, cols: seq<string>)
    ensures Total(Breakdown(users + [u], s, cols)) == Total(Breakdown(users, s, cols)) + Hits(u, s, cols)
  {
    if |cols| > 0 {
      BreakdownStep(users, u, s, cols[1..]);
      UsersWithSnoc(users, u, s, cols[0]);
      BreakdownTotalCons(users + [u], s, cols);
      BreakdownTotalCons(users, s, cols);
    }
  }

  /** Over columns without repeats, a row is counted once when it belongs
      to the site and its type is a column, and not at all otherwise. */
  lemma {:induction false} HitsOnce(u: UserRow, s: SiteId, cols: seq<string>)
    requires Distinct(cols)
    ensures Hits(u, s, cols) == if u.siteId == s && u.licenseType in cols then 1 else 0
  {
    if |cols| > 0 {
      DistinctTail(cols);
      HitsOnce(u, s, cols[1..]);
      assert u.licenseType in cols <==> u.licenseType == cols[0] || u.licenseType in cols[1..] by {
        assert cols == [cols[0]] + cols[1..];
      }
    }
  }

  lemma UsersWithSnoc(users: seq<UserRow>, u: UserRow, s: SiteId, l: string)
    ensures UsersWith(users + [u], s, l) == UsersWith(users, s, l) + (if u.siteId == s && u.licenseType == l then 1 else 0)
  {
    assert (users + [u])[..|users|] == users;
  }

  lemma BreakdownTotalCons(users: seq<UserRow>, s: SiteId, cols: seq<string>)
    requires |cols| > 0
    ensures Total(Breakdown(users, s, cols)) == UsersWith(users, s, cols[0]) + Total(Breakdown(users, s, cols[1..]))
  {
    TotalCons((cols[0], UsersWith(users, s, cols[0])), Breakdown(users, s, cols[1..]));
  }

  /** The tail of a list without repeats has no repeats and lacks the head. */
  lemma DistinctTail<T>(xs: seq<T>)
    requires Distinct(xs) && |xs| > 0
    ensures Distinct(xs[1..]) && xs[0] !in xs[1..]
  {
    forall i, j | 0 <= i < j < |xs| - 1 ensures xs[1..][i] != xs[1..][j] {
      assert xs[1..][i] == xs[i + 1] && xs[1..][j] == xs[j + 1];
    }
    forall j | 0 <= j < |xs| - 1 ensures xs[1..][j] != xs[0] {
      assert xs[1..][j] == xs[j + 1];
    }
  }

  /** Over a column list naming every license type once, a site's counts add
      up to the number of its user rows. */
  lemma {:induction false} BreakdownTotal(users: seq<UserRow>, s: SiteId, cols: seq<string>)
    requires Distinct(cols)
    requires forall j :: 0 <= j < |users| ==> users[j].licenseType in cols
    ensures Total(Breakdown(users, s, cols)) == UsersAt(users, s)
  {
    if |users| == 0 {
      BreakdownOfEmpty(s, cols);
    } else {
      var init := users[..|users| - 1];
      var u := users[|users| - 1];
      assert users == init + [u];
      BreakdownTotal(init, s, cols);
      BreakdownStep(init, u, s, cols);
      HitsOnce(u, s, cols);
    }
  }

  /** The license pivot, per site: a count for every license type that
      occurs in the user table (0 for types the site lacks), equal to the
      number of the site's user rows with that type, and summing over the
      types to the site's number of user rows. Month plays no part. */
  lemma LicenseBreakdownPerSite(users: seq<UserRow>)
    ensures forall i :: 0 <= i < |UserAgg(users)| ==>
      var row := UserAgg(users)[i];
      && |row.counts| == |LicenseColumns(users)|
      && (forall c :: 0 <= c < |row.counts| ==>
            row.counts[c] == (LicenseColumns(users)[c], UsersWith(users, row.siteId, LicenseColumns(users)[c])))
      && Total(row.counts) == UsersAt(users, row.siteId)
  {
    var cols := LicenseColumns(users);
    forall j | 0 <= j < |users| ensures users[j].licenseType in cols {
      assert UserLicenses(users)[j] == users[j].licenseType;
    }
    forall i | 0 <= i < |UserAgg(users)|
      ensures Total(UserAgg(users)[i].counts) == UsersAt(users, UserAgg(users)[i].siteId)
    {
      BreakdownTotal(users, UserAgg(users)[i].siteId, cols);
    }
  }

  // ---------------------------------------------------------------------------
  // Site, customer and license metadata

  /** One row of `monthly_site_summary`: the measures of a (site_id, month),
      the site's customer_id, the customer's attributes and the site's
      license-type counts; `None` where the left join found no match (NaN). */
  datatype SummaryRow = SummaryRow(
    siteId: SiteId,
    month: Month,
    eventCount: nat,
    storageGb: real,
    jobMinutes: nat,
    customerId: Option<CustomerId>,
    customer: Option<CustomerRow>,
    licenses: Option<seq<(string, nat)>>)

  function RowSite(r: MonthlyRow): SiteId
  {
    r.siteId
  }

  /** The `customer_id` column brought in by the site join. */
  function SiteOwner(x: (MonthlyRow, Option<SiteRow>)): Option<CustomerId>
  {
    if x.1.Some? then Some(x.1.value.customerId) else None
  }

  function JoinedSite(x: ((MonthlyRow, Option<SiteRow>), Option<CustomerRow>)): SiteId
  {
    x.0.0.siteId
  }

  function Decorate(x: (((MonthlyRow, Option<SiteRow>), Option<CustomerRow>), Option<LicenseRow>)): SummaryRow
  {
    var m := x.0.0.0;
    SummaryRow(m.siteId, m.month, m.eventCount, m.storageGb, m.jobMinutes,
               SiteOwner(x.0.0), x.0.1, if x.1.Some? then Some(x.1.value.counts) else None)
  }

  /** The customer_id the site table gives site `s`. */
  function OwnerOf(sites: seq<SiteRow>, s: SiteId): Option<CustomerId>
  {
    var f := FindBy(sites, SiteKey, s);
    if f.Some? then Some(f.value.customerId) else None
  }

  /** The customer row the customer table gives `id`. */
  function CustomerOf(customers: seq<CustomerRow>, id: Option<CustomerId>): Option<CustomerRow>
  {
    FindBy(customers, CustomerKey, id)
  }

  /** The license counts the pivot gives site `s`. */
  function LicensesOf(pivot: seq<LicenseRow>, s: SiteId): Option<seq<(string, nat)>>
  {
    var f := FindBy(pivot, LicenseSite, s);
    if f.Some? then Some(f.value.counts) else None
  }

  lemma SiteKeyUnique(sites: seq<SiteRow>)
    requires SiteIdsUnique(sites)
    ensures UniqueBy(sites, SiteKey)
  {
  }

  lemma CustomerKeyUnique(customers: seq<CustomerRow>)
    requires CustomerIdsUnique(customers)
    ensures UniqueBy(customers, CustomerKey)
  {
  }

  /** `merge(site_df, on='site_id')`, `merge(customers, on='customer_id')`
      and `merge(user_agg, on='site_id')`, all `how='left'`. When site_id
      is a key of the site table and customer_id a key of the customer table
      the row count is unchanged, each row keeps its measures and gains the
      customer_id of its site, that customer's row and the site's license
      counts. */
  function AttachMetadata(rows: seq<MonthlyRow>, sites: seq<SiteRow>, customers: seq<CustomerRow>,
                          pivot: seq<LicenseRow>): (r: seq<SummaryRow>)
    ensures SiteIdsUnique(sites) && CustomerIdsUnique(customers) && UniqueBy(pivot, LicenseSite) ==>
      |r| == |rows| &&
      forall i :: 0 <= i < |rows| ==>
        && r[i].siteId == rows[i].siteId && r[i].month == rows[i].month
        && r[i].eventCount == rows[i].eventCount && r[i].storageGb == rows[i].storageGb
        && r[i].jobMinutes == rows[i].jobMinutes
        && r[i].customerId == OwnerOf(sites, rows[i].siteId)
        && r[i].customer == CustomerOf(customers, r[i].customerId)
        && r[i].licenses == LicensesOf(pivot, rows[i].siteId)
  {
    var withSite := LeftJoin(rows, sites, RowSite, SiteKey);
    var withCustomer := LeftJoin(withSite, customers, SiteOwner, CustomerKey);
    var withLicenses := LeftJoin(withCustomer, pivot, JoinedSite, LicenseSite);
    var r := seq(|withLicenses|, i requires 0 <= i < |withLicenses| => Decorate(withLicenses[i]));
    DecoratedRows(rows, sites, customers, pivot, withSite, withCustomer, withLicenses, r);
    r
  }

  lemma {:induction false} DecoratedRows(rows: seq<MonthlyRow>, sites: seq<SiteRow>, customers: seq<CustomerRow>,
                     pivot: seq<LicenseRow>,
                     withSite: seq<(MonthlyRow, Option<SiteRow>)>,
                     withCustomer: seq<((MonthlyRow, Option<SiteRow>), Option<CustomerRow>)>,
                     withLicenses: seq<(((MonthlyRow, Option<SiteRow>), Option<CustomerRow>), Option<LicenseRow>)>,
                     r: seq<SummaryRow>)
    requires withSite == LeftJoin(rows, sites, RowSite, SiteKey)
    requires withCustomer == LeftJoin(withSite, customers, SiteOwner, CustomerKey)
    requires withLicenses == LeftJoin(withCustomer, pivot, JoinedSite, LicenseSite)
    requires |r| == |withLicenses|
    requires forall i :: 0 <= i < |r| ==> r[i] == Decorate(withLicenses[i])
    ensures SiteIdsUnique(sites) && CustomerIdsUnique(customers) && UniqueBy(pivot, LicenseSite) ==>
      |r| == |rows| &&
      forall i :: 0 <= i < |rows| ==>
        && r[i].siteId == rows[i].siteId && r[i].month == rows[i].month
        && r[i].eventCount == rows[i].eventCount && r[i].storageGb == rows[i].storageGb
        && r[i].jobMinutes == rows[i].jobMinutes
        && r[i].customerId == OwnerOf(sites, rows[i].siteId)
        && r[i].customer == CustomerOf(customers, r[i].customerId)
        && r[i].licenses == LicensesOf(pivot, rows[i].siteId)
  {
    if SiteIdsUnique(sites) && CustomerIdsUnique(customers) && UniqueBy(pivot, LicenseSite) {
      SiteKeyUnique(sites);
      CustomerKeyUnique(customers);
      forall i | 0 <= i < |rows|
        ensures r[i].siteId == rows[i].siteId && r[i].month == rows[i].month
        ensures r[i].eventCount == rows[i].eventCount && r[i].storageGb == rows[i].storageGb
        ensures r[i].jobMinutes == rows[i].jobMinutes
        ensures r[i].customerId == OwnerOf(sites, rows[i].siteId)
        ensures r[i].customer == CustomerOf(customers, r[i].customerId)
        ensures r[i].licenses == LicensesOf(pivot, rows[i].siteId)
      {
        DecoratedRow(rows, sites, customers, pivot, withSite, withCustomer, withLicenses, i);
      }
    }
  }

  /** The decorated row at `i` carries the metadata found for its site. */
  lemma {:induction false} DecoratedRow(rows: seq<MonthlyRow>, sites: seq<SiteRow>, customers: seq<CustomerRow>, pivot: seq<LicenseRow>,
                     withSite: seq<(MonthlyRow, Option<SiteRow>)>,
                     withCustomer: seq<((MonthlyRow, Option<SiteRow>), Option<CustomerRow>)>,
                     withLicenses: seq<(((MonthlyRow, Option<SiteRow>), Option<CustomerRow>), Option<LicenseRow>)>,
                     i: nat)
    requires UniqueBy(sites, SiteKey) && UniqueBy(customers, CustomerKey) && UniqueBy(pivot, LicenseSite)
    requires withSite == LeftJoin(rows, sites, RowSite, SiteKey)
    requires withCustomer == LeftJoin(withSite, customers, SiteOwner, CustomerKey)
    requires withLicenses == LeftJoin(withCustomer, pivot, JoinedSite, LicenseSite)
    requires i < |rows|
    ensures |withLicenses| == |rows|
    ensures var d := Decorate(withLicenses[i]);
      && d.customerId == OwnerOf(sites, rows[i].siteId)
      && d.customer == CustomerOf(customers, d.customerId)
      && d.licenses == LicensesOf(pivot, rows[i].siteId)
  {
    assert withSite[i] == (rows[i], FindBy(sites, SiteKey, rows[i].siteId));
    assert withCustomer[i] == (withSite[i], FindBy(customers, CustomerKey, SiteOwner(withSite[i])));
    assert withLicenses[i] == (withCustomer[i], FindBy(pivot, LicenseSite, rows[i].siteId));
  }

  function SummaryKeys(rows: seq<SummaryRow>): set<Key>
  {
    set i | 0 <= i < |rows| :: (rows[i].siteId, rows[i].month)
  }

  lemma AttachedKeysFromRows(rows: seq<MonthlyRow>, sites: seq<SiteRow>, customers: seq<CustomerRow>,
                             pivot: seq<LicenseRow>)
    ensures SummaryKeys(AttachMetadata(rows, sites, customers, pivot)) <= RowKeys(rows)
  {
    var withSite := LeftJoin(rows, sites, RowSite, SiteKey);
    var withCustomer := LeftJoin(withSite, customers, SiteOwner, CustomerKey);
    var withLicenses := LeftJoin(withCustomer, pivot, JoinedSite, LicenseSite);
    var r := AttachMetadata(rows, sites, customers, pivot);
    LeftJoinRows(rows, sites, RowSite, SiteKey);
    LeftJoinRows(withSite, customers, SiteOwner, CustomerKey);
    LeftJoinRows(withCustomer, pivot, JoinedSite, LicenseSite);
    forall k | k in SummaryKeys(r) ensures k in RowKeys(rows) {
      var i :| 0 <= i < |r| && (r[i].siteId, r[i].month) == k;
      assert withLicenses[i] in withLicenses;
      assert withLicenses[i].0 in withCustomer;
      assert withLicenses[i].0.0 in withSite;
      var m := withLicenses[i].0.0.0;
      assert m in rows;
      var j :| 0 <= j < |rows| && rows[j] == m;
      assert (rows[j].siteId, rows[j].month) == k;
    }
  }

  lemma RowKeysAttached(rows: seq<MonthlyRow>, sites: seq<SiteRow>, customers: seq<CustomerRow>,
                        pivot: seq<LicenseRow>)
    ensures RowKeys(rows) <= SummaryKeys(AttachMetadata(rows, sites, customers, pivot))
  {
    var withSite := LeftJoin(rows, sites, RowSite, SiteKey);
    var withCustomer := LeftJoin(withSite, customers, SiteOwner, CustomerKey);
    var withLicenses := LeftJoin(withCustomer, pivot, JoinedSite, LicenseSite);
    var r := AttachMetadata(rows, sites, customers, pivot);
    LeftJoinKeepsLeft(rows, sites, RowSite, SiteKey);
    LeftJoinKeepsLeft(withSite, customers, SiteOwner, CustomerKey);
    LeftJoinKeepsLeft(withCustomer, pivot, JoinedSite, LicenseSite);
    forall k | k in RowKeys(rows) ensures k in SummaryKeys(r) {
      var j :| 0 <= j < |rows| && (rows[j].siteId, rows[j].month) == k;
      assert rows[j] in rows;
      var o1 :| o1 in withSite && o1.0 == rows[j];
      var o2 :| o2 in withCustomer && o2.0 == o1;
      var o3 :| o3 in withLicenses && o3.0 == o2;
      var i :| 0 <= i < |withLicenses| && withLicenses[i] == o3;
      assert (r[i].siteId, r[i].month) == k;
    }
  }

  // ---------------------------------------------------------------------------
  // The whole roll-up

  /** `monthly_summary`: the activity aggregate, left-joined with the storage
      (in GiB) and job aggregates, gaps filled with 0, then with the site,
      customer and license-pivot tables. */
  function MonthlySummary(storage: seq<StorageRow>, jobs: seq<JobRow>, activity: seq<ActivityRow>,
                          users: seq<UserRow>, sites: seq<SiteRow>, customers: seq<CustomerRow>,
                          toGb: nat -> real): seq<SummaryRow>
  {
    var measures := MergeMeasures(ActivityAgg(activity), StorageAgg(storage, toGb), JobsAgg(jobs));
    AttachMetadata(measures, sites, customers, UserAgg(users))
  }

  /** The summary's (site_id, month) keys are exactly those with activity:
      months that have only storage or job data are dropped, whatever the
      metadata tables hold. */
  lemma SummaryKeysAreActivityKeys(storage: seq<StorageRow>, jobs: seq<JobRow>, activity: seq<ActivityRow>,
                                   users: seq<UserRow>, sites: seq<SiteRow>, customers: seq<CustomerRow>,
                                   toGb: nat -> real)
    ensures forall k: Key :: k in SummaryKeys(MonthlySummary(storage, jobs, activity, users, sites, customers, toGb))
                            <==> HasActivity(activity, k.0, k.1)
  {
    var act := ActivityAgg(activity);
    var measures := MergeMeasures(act, StorageAgg(storage, toGb), JobsAgg(jobs));
    MergeMeasuresKeys(act, StorageAgg(storage, toGb), JobsAgg(jobs));
    AttachedKeysFromRows(measures, sites, customers, UserAgg(users));
    RowKeysAttached(measures, sites, customers, UserAgg(users));
  }

  /** With site_id a key of the site table, the owner read for `s` is the
      customer_id on `s`'s site row, and there is none exactly when the
      table has no row for `s`. */
  lemma OwnerOfMeaning(sites: seq<SiteRow>, s: SiteId)
    requires SiteIdsUnique(sites)
    ensures forall c: CustomerId :: OwnerOf(sites, s) == Some(c) <==> SiteRow(c, s) in sites
    ensures OwnerOf(sites, s).None? <==> forall i :: 0 <= i < |sites| ==> sites[i].siteId != s
  {
    SiteKeyUnique(sites);
    forall c: CustomerId | SiteRow(c, s) in sites ensures OwnerOf(sites, s) == Some(c) {
      var i :| 0 <= i < |sites| && sites[i] == SiteRow(c, s);
      FindByUnique(sites, SiteKey, i);
    }
  }

  /** With customer_id a key of the customer table, the row read for
      customer `c` is that customer's row; a missing customer_id reads
      nothing. */
  lemma CustomerOfMeaning(customers: seq<CustomerRow>, c: CustomerId)
    requires CustomerIdsUnique(customers)
    ensures forall row :: CustomerOf(customers, Some(c)) == Some(row) <==> row in customers && row.customerId == c
    ensures CustomerOf(customers, None) == None
  {
    CustomerKeyUnique(customers);
    forall row | row in customers && row.customerId == c ensures CustomerOf(customers, Some(c)) == Some(row) {
      var i :| 0 <= i < |customers| && customers[i] == row;
      FindByUnique(customers, CustomerKey, i);
    }
  }

  /** The license counts the summary attaches to site `s`: the per-type
      breakdown of its user rows, or nothing (NaN) when the site has none. */
  lemma LicensesOfMeaning(users: seq<UserRow>, s: SiteId)
    ensures LicensesOf(UserAgg(users), s)
      == if UsersAt(users, s) > 0 then Some(Breakdown(users, s, LicenseColumns(users))) else None
  {
    var pivot := UserAgg(users);
    UsersAtPositive(users, s);
    if UsersAt(users, s) > 0 {
      var j :| 0 <= j < |users| && users[j].siteId == s;
      assert HasLicenseRow(pivot, s);
      var i :| 0 <= i < |pivot| && pivot[i].siteId == s;
      FindByUnique(pivot, LicenseSite, i);
    }
  }

  /** The content of every summary row, when site_id is a key of the site
      table and customer_id a key of the customer table: one row per
      activity (site, month), in the activity aggregate's order, holding that
      month's summed event count, the GiB figure of its summed storage bytes
      or 0 when it has no storage rows, its summed job minutes or 0 when it
      has no job rows, the customer_id of its site, that customer's row, and
      the site's license breakdown, which does not depend on the month. */
  lemma SummaryRowValues(storage: seq<StorageRow>, jobs: seq<JobRow>, activity: seq<ActivityRow>,
                         users: seq<UserRow>, sites: seq<SiteRow>, customers: seq<CustomerRow>,
                         toGb: nat -> real)
    requires SiteIdsUnique(sites)
    requires CustomerIdsUnique(customers)
    ensures var out := MonthlySummary(storage, jobs, activity, users, sites, customers, toGb);
      |out| == |ActivityAgg(activity)| &&
      forall i :: 0 <= i < |out| ==>
        var s := out[i].siteId;
        var m := out[i].month;
        && (s, m) == ActivityAgg(activity)[i].0
        && out[i].eventCount == EventsIn(activity, s, m)
        && out[i].storageGb == (if HasStorage(storage, s, m) then toGb(BytesIn(storage, s, m)) else 0.0)
        && out[i].jobMinutes == (if HasJobs(jobs, s, m) then MinutesIn(jobs, s, m) else 0)
        && out[i].customerId == OwnerOf(sites, s)
        && out[i].customer == CustomerOf(customers, out[i].customerId)
        && out[i].licenses == (if UsersAt(users, s) > 0 then Some(Breakdown(users, s, LicenseColumns(users))) else None)
  {
    var act := ActivityAgg(activity);
    var sto := StorageAgg(storage, toGb);
    var jb := JobsAgg(jobs);
    var measures := MergeMeasures(act, sto, jb);
    var out := MonthlySummary(storage, jobs, activity, users, sites, customers, toGb);
    assert out == AttachMetadata(measures, sites, customers, UserAgg(users));
    forall i | 0 <= i < |out|
      ensures out[i].storageGb == (if HasStorage(storage, out[i].siteId, out[i].month)
                                   then toGb(BytesIn(storage, out[i].siteId, out[i].month)) else 0.0)
      ensures out[i].jobMinutes == (if HasJobs(jobs, out[i].siteId, out[i].month)
                                    then MinutesIn(jobs, out[i].siteId, out[i].month) else 0)
      ensures out[i].licenses == (if UsersAt(users, out[i].siteId) > 0
                                  then Some(Breakdown(users, out[i].siteId, LicenseColumns(users))) else None)
    {
      var k := act[i].0;
      if k in KeysOf(sto) {
        var j :| 0 <= j < |sto| && sto[j] == (k, measures[i].storageGb);
      }
      if k in KeysOf(jb) {
        var j :| 0 <= j < |jb| && jb[j] == (k, measures[i].jobMinutes);
      }
      LicensesOfMeaning(users, out[i].siteId);
    }
  }

  /** Rows of the same site carry the same customer and license columns,
      whatever their month. */
  lemma SiteColumnsIgnoreMonth(storage: seq<StorageRow>, jobs: seq<JobRow>, activity: seq<ActivityRow>,
                               users: seq<UserRow>, sites: seq<SiteRow>, customers: seq<CustomerRow>,
                               toGb: nat -> real)
    requires SiteIdsUnique(sites)
    requires CustomerIdsUnique(customers)
    ensures var out := MonthlySummary(storage, jobs, activity, users, sites, customers, toGb);
      forall i, j :: 0 <= i < |out| && 0 <= j < |out| && out[i].siteId == out[j].siteId ==>
        out[i].licenses == out[j].licenses && out[i].customerId == out[j].customerId
        && out[i].customer == out[j].customer
  {
    var measures := MergeMeasures(ActivityAgg(activity), StorageAgg(storage, toGb), JobsAgg(jobs));
    AttachedSiteColumns(measures, sites, customers, UserAgg(users));
  }

  /** The decoration of a row depends on its site alone. */
  lemma AttachedSiteColumns(rows: seq<MonthlyRow>, sites: seq<SiteRow>, customers: seq<CustomerRow>,
                            pivot: seq<LicenseRow>)
    requires SiteIdsUnique(sites)
    requires CustomerIdsUnique(customers)
    requires UniqueBy(pivot, LicenseSite)
    ensures var out := AttachMetadata(rows, sites, customers, pivot);
      forall i, j :: 0 <= i < |out| && 0 <= j < |out| && out[i].siteId == out[j].siteId ==>
        out[i].licenses == out[j].licenses && out[i].customerId == out[j].customerId
        && out[i].customer == out[j].customer
  {
  }

  /** The (site_id, month) buckets the activity table touches. */
  function ActivityBuckets(activity: seq<ActivityRow>): set<Key>
  {
    set i | 0 <= i < |activity| :: (activity[i].siteId, MonthOf(activity[i].date))
  }

  /** With key columns unique in the site and customer tables, the summary
      has exactly one row per (site_id, month) bucket of the activity table. */
  lemma SummaryRowCount(storage: seq<StorageRow>, jobs: seq<JobRow>, activity: seq<ActivityRow>,
                        users: seq<UserRow>, sites: seq<SiteRow>, customers: seq<CustomerRow>,
                        toGb: nat -> real)
    requires SiteIdsUnique(sites)
    requires CustomerIdsUnique(customers)
    ensures |MonthlySummary(storage, jobs, activity, users, sites, customers, toGb)| == |ActivityBuckets(activity)|
  {
    var act := ActivityAgg(activity);
    assert |MonthlySummary(storage, jobs, activity, users, sites, customers, toGb)| == |act| by {
      SummaryRowValues(storage, jobs, activity, users, sites, customers, toGb);
    }
    UniqueKeysCount(act);
    ActivityBucketsAreKeys(activity);
  }

  /** The activity aggregate's keys are the activity table's buckets. */
  lemma ActivityBucketsAreKeys(activity: seq<ActivityRow>)
    ensures KeysOf(ActivityAgg(activity)) == ActivityBuckets(activity)
  {
    var act := ActivityAgg(activity);
    forall k | k in KeysOf(act) ensures k in ActivityBuckets(activity) {
      var i :| 0 <= i < |activity| && ActivitySite(activity[i]) == k.0 && InMonth(ActivityDate(activity[i]), k.1);
      assert k == (activity[i].siteId, MonthOf(activity[i].date));
    }
    forall k | k in ActivityBuckets(activity) ensures k in KeysOf(act) {
      var i :| 0 <= i < |activity| && k == (activity[i].siteId, MonthOf(activity[i].date));
      assert ActivitySite(activity[i]) == k.0 && InMonth(ActivityDate(activity[i]), k.1);
    }
  }
}
