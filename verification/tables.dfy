/**
 The six tables the generator writes and the monthly roll-up reads back
 (`saas_customer_info`, `saas_sites`, `saas_storage`, `saas_users`,
 `saas_user_activity`, `saas_background_jobs`), one datatype per row kind,
 with the column selectors the joins and group-bys key on.
 */
module Tables {
  import opened Common

  /** Customer ids are the integers `10**9 + i`; site ids are strings. */
  type CustomerId = nat
  type SiteId = string

  datatype CustomerRow = CustomerRow(
    customerId: CustomerId,
    industry: string,
    region: string,
    accountTier: string,
    contactEmail: string)

  datatype SiteRow = SiteRow(customerId: CustomerId, siteId: SiteId)

  datatype StorageRow = StorageRow(
    customerId: CustomerId,
    siteId: SiteId,
    date: Date,
    storageBytes: nat)

  /** A user's assignment to one site; a user assigned to two sites of its
      customer has two rows. */
  datatype UserRow = UserRow(
    customerId: CustomerId,
    siteId: SiteId,
    userEmail: string,
    registrationDate: Date,
    licenseType: string)

  /** One row of the activity table after counting raw events by their full
      (customer, user, site, date, type) tuple. */
  datatype ActivityRow = ActivityRow(
    customerId: CustomerId,
    userEmail: string,
    siteId: SiteId,
    date: Date,
    activityType: string,
    eventCount: nat)

  datatype JobRow = JobRow(
    customerId: CustomerId,
    siteId: SiteId,
    date: Date,
    jobType: string,
    minutes: nat)

  // Column selectors, used as keys and values by the group-bys and joins.

  function SiteKey(s: SiteRow): SiteId { s.siteId }
  function CustomerKey(c: CustomerRow): Option<CustomerId> { Some(c.customerId) }

  function StorageSite(r: StorageRow): SiteId { r.siteId }
  function StorageDate(r: StorageRow): Date { r.date }
  function StorageBytes(r: StorageRow): nat { r.storageBytes }

  function JobSite(r: JobRow): SiteId { r.siteId }
  function JobDate(r: JobRow): Date { r.date }
  function JobMinutes(r: JobRow): nat { r.minutes }

  function ActivitySite(r: ActivityRow): SiteId { r.siteId }
  function ActivityDate(r: ActivityRow): Date { r.date }
  function ActivityEvents(r: ActivityRow): nat { r.eventCount }

  /** site_id is a key of the site table. */
  predicate SiteIdsUnique(sites: seq<SiteRow>)
  {
    forall i, j :: 0 <= i < j < |sites| ==> sites[i].siteId != sites[j].siteId
  }

  /** customer_id is a key of the customer table. */
  predicate CustomerIdsUnique(customers: seq<CustomerRow>)
  {
    forall i, j :: 0 <= i < j < |customers| ==> customers[i].customerId != customers[j].customerId
  }

  /** Reference: the number of user rows of site `s`. */
  function UsersAt(users: seq<UserRow>, s: SiteId): nat
  {
    if |users| == 0 then 0
    else UsersAt(users[..|users| - 1], s) + (if users[|users| - 1].siteId == s then 1 else 0)
  }
}
