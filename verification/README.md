# Synthetic SaaS usage data and its monthly roll-up, in Dafny

This project models the three programs of a small SaaS analytics pipeline:

- **The relational generator** (`01-generate/generate_saas_data.py`). It builds six tables: 65 customers, their sites, daily storage per site, users assigned to sites, per-user daily activity and daily background jobs.
- **The monthly roll-up** (`02-unify/build_monthly_summary.py`). It reads those tables back and produces `monthly_site_summary`, one row per (site, month) with activity. Each row carries that month's events, storage (GiB) and job minutes, the site's customer and the site's license-type breakdown.
- **The earlier flat generator** (`generate_saas_data.py`). It uses 50 numbered customers, the site labels `site_1` to `site_3` and five users per customer.

Every random draw is an explicit input to the model: `random.choice`, `random.randint`, `random.choices`, `random.sample` and the Faker values. The range the random generator guarantees for each draw is a precondition. What remains is the structure the programs promise:

- keys and foreign keys;
- exactly-one-row-per-key;
- cardinalities and bounds;
- the meaning of each aggregate, stated against an independent reference sum;
- the effect of each left join.

Files:

| file | module | contents |
|---|---|---|
| `common.dfy` | `Common` | `Option` (NaN after a left join), `Date`, the month bucket `MonthOf`, `Distinct`, `Sum` |
| `tables.dfy` | `Tables` | one datatype per table row, column selectors, key-uniqueness predicates, the per-site user-row count `UsersAt` |
| `groupby.dfy` | `GroupBy` | `groupby(...).sum()` and `.size()` as folds over rows, with reference definitions `SumFor` and `Count` |
| `join.dfy` | `Join` | `merge(..., how='left')` with pandas' multiplicity, and `FindBy` |
| `grid.dfy` | `Grid` | nested loops: `Flatten` (blocks appended in turn) and `Cross` (row-major pairs) |
| `decimal.dfy` | `Decimal` | `str(n)` for naturals and its inverse |
| `monthly_summary.dfy` | `MonthlySummary` | the roll-up |
| `generator.dfy` | `Generator` | the relational generator |
| `legacy_generator.dfy` | `LegacyGenerator` | the flat generator |

Inputs to the roll-up:

- **The GiB conversion.** `(bytes / 1024**3).round(2)` is a function parameter `toGb`.
- **Dates.** The generators' `pd.date_range` is a parameter: a sequence of dates.

## Model

| member | source | states |
|---|---|---|
| MonthlySummary.MonthKeyedSums | 02-unify/build_monthly_summary.py:13-19 | After the `month` column is added, the per-(site, month) sum of a column equals the independent sum over that site's rows dated in that calendar month, whatever their day. The keys present are exactly the (site, month) pairs that have such a row. |
| MonthlySummary.StorageBytesAgg | 02-unify/build_monthly_summary.py:24 | Keys are unique. The keys are exactly the (site, month) pairs with a storage row. Each value is the site's total bytes over the days of that month. |
| MonthlySummary.StorageAgg | 02-unify/build_monthly_summary.py:24-26 | The same keys, each with the GiB figure of that month's total bytes. The byte column is gone. |
| MonthlySummary.JobsAgg | 02-unify/build_monthly_summary.py:29 | Keys are unique. The keys are exactly the (site, month) pairs with job rows. Each value is the total job minutes of that site in that month. |
| MonthlySummary.ActivityAgg | 02-unify/build_monthly_summary.py:32 | Keys are unique. The keys are exactly the (site, month) pairs with activity rows. Each value is the total `event_count` of that site in that month. |
| MonthlySummary.ActivityBucketsAreKeys | 02-unify/build_monthly_summary.py:19-32 | The activity aggregate's keys are exactly the (site_id, month-of-date) buckets that occur in the activity table. |
| MonthlySummary.LicenseColumns | 02-unify/build_monthly_summary.py:36 | The pivot's columns are every license type held by some user row, each exactly once. |
| MonthlySummary.PivotIsBreakdown | 02-unify/build_monthly_summary.py:36 | A pivot row's counts are read from the `(site_id, license_type)` group sizes with `fill_value=0`. They equal, per column, the number of the site's user rows holding that type. |
| MonthlySummary.UserAgg | 02-unify/build_monthly_summary.py:36 | One pivot row per site that has user rows, and no other. No site appears twice. Every site of the user table has a row. The counts are the per-type breakdown of that site's users. |
| MonthlySummary.LicenseBreakdownPerSite | 02-unify/build_monthly_summary.py:34-36 | Each site's pivot counts name every license type, with 0 for types the site lacks. They add up to the site's number of user rows. The month plays no part. |
| MonthlySummary.BreakdownTotal | 02-unify/build_monthly_summary.py:36 | Over columns naming every license type once, a site's per-type counts add up to its number of user rows. |
| MonthlySummary.MergeMeasures | 02-unify/build_monthly_summary.py:39-46 | Storage and job aggregates with unique keys are left-joined onto the activity aggregate. Each activity row then yields exactly one row, in order. That row carries the matched storage or job value, or 0 (`fillna(0)`) when none matches. |
| MonthlySummary.MergeMeasuresKeys | 02-unify/build_monthly_summary.py:39-43 | Whatever the aggregates hold, the merged rows carry exactly the activity aggregate's keys. Storage-only or job-only months are dropped. |
| MonthlySummary.AttachMetadata | 02-unify/build_monthly_summary.py:48-53 | With unique site ids and customer ids, the site, customer and pivot joins keep the row count and every measure. Each row gains the customer_id of its site, that customer's row and the site's license counts. |
| MonthlySummary.OwnerOfMeaning | 02-unify/build_monthly_summary.py:49 | The customer_id attached for site `s` is `c` exactly when `(c, s)` is a site row. It is missing (NaN) exactly when no site row names `s`. |
| MonthlySummary.CustomerOfMeaning | 02-unify/build_monthly_summary.py:50 | The customer row attached for customer `c` is exactly `c`'s row. A missing customer_id attaches nothing. |
| MonthlySummary.LicensesOfMeaning | 02-unify/build_monthly_summary.py:53 | A site with user rows gets its per-type breakdown. A site without user rows gets NaN. |
| MonthlySummary.SummaryKeysAreActivityKeys | 02-unify/build_monthly_summary.py:39-53 | The summary's (site_id, month) keys are exactly those with activity, whatever the metadata tables hold. |
| MonthlySummary.SummaryRowValues | 02-unify/build_monthly_summary.py:13-53 | Each summary row, in activity-aggregate order, holds: that month's event total; the GiB figure of its stored bytes, or 0; its job minutes, or 0; its site's customer and customer row; and the site's license breakdown. |
| MonthlySummary.SiteColumnsIgnoreMonth | 02-unify/build_monthly_summary.py:49-53 | Rows of the same site carry the same customer and license columns, whatever their month. |
| MonthlySummary.SummaryRowCount | 02-unify/build_monthly_summary.py:32-53 | With unique site and customer keys, the summary has exactly one row per (site, month) bucket of the activity table. |
| GroupBy.GroupSum | 02-unify/build_monthly_summary.py:24-32 | `groupby(key).sum()` has unique keys, exactly the input's keys, and per key the sum of that key's values. The grand total is unchanged. |
| GroupBy.GroupCount | 01-generate/generate_saas_data.py:127-129 | `groupby(...).size()` has unique keys, exactly the distinct input values, and per value its number of occurrences, at least 1. The counts add up to the number of input rows. |
| GroupBy.OnesSums | 01-generate/generate_saas_data.py:127-129 | Counting is summing a 1 per row: per value the occurrence count, in total the row count. |
| Join.FindBy | 02-unify/build_monthly_summary.py:49-53 | A lookup finds a row with the requested key, or finds nothing exactly when no row has that key. |
| Join.FindByUnique | 02-unify/build_monthly_summary.py:49-53 | On a key column without repeats, looking up a row's key finds that very row. |
| Join.LeftJoin | 02-unify/build_monthly_summary.py:42-53 | A left merge yields at least one row per left row. When the right key is unique it yields exactly one row per left row, in order, paired with the right row found, or with NaN. |
| Join.LeftJoinRows | 02-unify/build_monthly_summary.py:42-53 | Every output row comes from a left row. It carries either a right row with the same key, or NaN when no right row has that key. |
| Join.LeftJoinKeepsLeft | 02-unify/build_monthly_summary.py:42-53 | No left row is lost. |
| Decimal.ValueOfDigits | 01-generate/generate_saas_data.py:28 | Reading back `str(n)` gives `n`. |
| Decimal.DigitsInjective | 01-generate/generate_saas_data.py:28 | Distinct numbers have distinct decimal strings, and equal numbers equal strings. |
| Decimal.DigitsLength | 01-generate/generate_saas_data.py:28 | A number between `10^k` and `10^(k+1)` has a `(k+1)`-digit string. |
| Grid.CrossMember | 01-generate/generate_saas_data.py:64-65 | Two nested loops visit exactly the pairs of an element of each list. |
| Grid.CrossDistinct | 01-generate/generate_saas_data.py:64-65 | Two nested loops over lists without repeats visit no pair twice. |
| Grid.FlattenMember | 01-generate/generate_saas_data.py:97-107 | Rows appended by a loop of blocks are exactly the rows of some block. |
| Generator.CustomerTable | 01-generate/generate_saas_data.py:26-40 | 65 customers with strictly increasing, hence unique, ids. Industry, region and tier come from the fixed lists, and the contact e-mail is the Faker draw. |
| Generator.CustomerIdsIssued | 01-generate/generate_saas_data.py:27-28 | The ids issued are exactly `10**9 + 1` to `10**9 + 65`, and each `str` of them has ten digits. |
| Generator.InternalAccountsAreFirstEight | 01-generate/generate_saas_data.py:43 | The internal accounts are the eight customers numbered 1 to 8, in order. |
| Generator.SiteIdOfInjective | 01-generate/generate_saas_data.py:52 | Different digit draws give different site ids. |
| Generator.NextFresh | 01-generate/generate_saas_data.py:51-55 | The `while True` loop returns the first drawn id not yet issued, and every earlier draw was already issued. It runs dry exactly when every draw is already issued. |
| Generator.IssueSites | 01-generate/generate_saas_data.py:46-59 | One site per owner, in order. Each id is drawn, was not issued before, and no two sites share an id. |
| Generator.IssueSitesSucceeds | 01-generate/generate_saas_data.py:51-55 | With enough distinct draws, none already issued, every site gets an id. |
| Generator.DrawFresh | 01-generate/generate_saas_data.py:51-55 | The imperative rejection loop picks exactly what `NextFresh` picks and consumes the same number of draws. |
| Generator.IssueSitesLoop | 01-generate/generate_saas_data.py:46-59 | The loop as written, with its `site_ids` set, gives exactly `IssueSites`: unique ids and one site per owner. It succeeds whenever the draws are distinct and sufficient. |
| Generator.OwnersCount | 01-generate/generate_saas_data.py:48-50 | Customer `i` owns exactly its `randint(1, 3)` sites; an unlisted id owns none. |
| Generator.SiteTableFacts | 01-generate/generate_saas_data.py:46-60 | The site table exists given enough distinct draws. Its ids are unique and of the form "A" plus 11 digits. Every owner is a listed customer, and each customer owns between 1 and 3 sites, exactly as drawn. |
| Generator.StorageTable | 01-generate/generate_saas_data.py:63-73 | One row per site and day. Each row names a site row and a listed day. Its byte count is that row's draw, between 1,000,000 and 100,000,000. |
| Generator.StorageOneRowPerSiteDay | 01-generate/generate_saas_data.py:63-72 | Every site has a row for every day, with its owner, and no two rows share (site_id, date). |
| Generator.JobsTable | 01-generate/generate_saas_data.py:131-144 | One row per site, day and job type. Each row names a site row, a listed day and a listed type. Its minutes are that row's draw, 1 to 80. |
| Generator.JobsOneRowPerType | 01-generate/generate_saas_data.py:133-143 | Every site has a row for every day and every job type, with its owner, and no two rows share (site_id, date, type). |
| Generator.SiteUsers | 01-generate/generate_saas_data.py:96-105 | A site gets one user row per sampled pool entry, in sample order. Row k is at this site, under the pool's customer, with pool entry `sample[k]`'s e-mail, registration date and license type. When the pool's e-mails differ, no e-mail is assigned to the site twice, since `random.sample` draws without replacement. |
| Generator.SiteUserCount | 01-generate/generate_saas_data.py:96-105 | With unique site and customer ids, the users table holds exactly `len(sample)` rows at each site of a listed customer. That is between 1 and the size of the customer's pool. |
| Generator.CustomerUsersRows | 01-generate/generate_saas_data.py:77-107 | A customer's user rows belong to that customer and to one of its sites, and copy an entry of its pool. |
| Generator.UsersBelongToOwnSites | 01-generate/generate_saas_data.py:76-108 | Every user row names a site its own customer owns, holds a listed license type, and is an entry of that customer's pool. |
| Generator.EverySiteHasUsers | 01-generate/generate_saas_data.py:97-99 | Every site of a listed customer gets at least one user row, since `randint(1, len(user_pool))` is at least 1. |
| Generator.NoUserRepeatsAtSite | 01-generate/generate_saas_data.py:97-107 | Sampling is without replacement. So when a pool's e-mails differ, no two user rows share (site_id, user_email). |
| Generator.CustomerEmails | 01-generate/generate_saas_data.py:113 | The e-mail list read for a customer holds exactly the e-mails of that customer's user rows. |
| Generator.SlotMember | 01-generate/generate_saas_data.py:112-115 | The activity loop visits exactly the (site, day, e-mail) triples whose e-mail belongs to the site's own customer. The user need not be assigned to that site. |
| Generator.RawActivityBounds | 01-generate/generate_saas_data.py:112-125 | The raw events are the visits' blocks in turn, one block per (site, day, customer e-mail) visit. Each block holds 1 to 4 events. Every event carries its visit's customer, e-mail, site and day and a listed activity type. In total there are between 1 and 4 times as many events as visits. |
| Generator.RawActivityRows | 01-generate/generate_saas_data.py:110-125 | Every raw event is at a listed site of its customer, on a listed day, of a listed type, by a user of that customer. |
| Generator.EveryUserActiveDaily | 01-generate/generate_saas_data.py:112-125 | Every user of a customer has at least one event at every site of that customer on every day. |
| Generator.ActivityCounts | 01-generate/generate_saas_data.py:127-129 | One row per distinct (customer, user, site, date, type) tuple. Its `event_count` is the number of raw events with that tuple, at least 1. The counts add up to the number of raw events. |
| LegacyGenerator.RangeMember | generate_saas_data.py:21-22 | `range(lo, hi)` holds exactly the numbers from `lo` below `hi`, each once. |
| LegacyGenerator.SiteLabelInjective | generate_saas_data.py:26 | `f'site_{n}'` names `n`: different numbers give different labels. |
| LegacyGenerator.SiteLabelsMember | generate_saas_data.py:22-26 | A label is one of the three exactly when it names site 1, 2 or 3, and the three labels differ. |
| LegacyGenerator.LegacyStorage | generate_saas_data.py:19-29 | 150 rows per day. Each row has a customer from 1 to 50, one of the three labels, a listed day and the drawn byte count, which lies between 1,000,000 and 100,000,000. |
| LegacyGenerator.LegacyStorageOneRowPerSiteDay | generate_saas_data.py:21-28 | Every (customer, site number, day) has a row, and no two rows share (customer_id, site_id, date). |
| LegacyGenerator.LegacySiteLabelsShared | generate_saas_data.py:21-28 | A label alone is not a key: on any day two customers each have a `site_1` row. |
| LegacyGenerator.LegacyUsers | generate_saas_data.py:31-40 | 250 user rows with customers from 1 to 50, carrying the drawn e-mail and registration date. |
| LegacyGenerator.LegacyUserOwner | generate_saas_data.py:33-34 | Row `k` belongs to customer `k // 5 + 1`. |
| LegacyGenerator.LegacyUsersPerCustomer | generate_saas_data.py:33-45 | The e-mail list the activity loop reads for customer `c` is exactly the five e-mails drawn for `c`, in order. |
| LegacyGenerator.LegacySlotMember | generate_saas_data.py:44-48 | The activity loop visits exactly the (customer 1 to 50, label, day, e-mail of that customer) tuples. |
| LegacyGenerator.LegacyRawActivityBounds | generate_saas_data.py:44-56 | The raw events are the visits' blocks in turn, one block per (customer, label, day, e-mail) visit. Each block holds that visit's draw of 0 to 5 events. Every event carries its visit's customer, e-mail, label and day and a listed activity type. There are none at all when every draw is 0, so activity may be empty. |
| LegacyGenerator.LegacyRawActivityRows | generate_saas_data.py:43-56 | Every raw event has a customer from 1 to 50, one of the three labels, a listed day, a listed type and a user of that customer. |
| LegacyGenerator.LegacyActivity | generate_saas_data.py:42-58 | The flat generator's counted activity table. It has one row per distinct five-column tuple. Each row is a customer from 1 to 50 with one of its own users' e-mails, one of the three site labels, a listed day and a listed type, with a count of at least 1. Each count is the number of raw events with that tuple. The counts add up to the number of raw events, which is at most five per (customer, label, day, user) visit. When no visit draws an event, the table is empty. |
| LegacyGenerator.SiteIndexRoundTrip | generate_saas_data.py:62-64 | Each site index from 1 to 150 names a customer from 1 to 50 and a site from 1 to 3 that give the index back. |
| LegacyGenerator.IndexOfRoundTrip | generate_saas_data.py:62-64 | Each (customer, site) pair has an index from 1 to 150 that names it back. |
| LegacyGenerator.LegacyJobs | generate_saas_data.py:61-73 | 150 × days × 5 rows. Each has one of the three labels, a listed day, a listed type and the drawn 1 to 30 minutes. No row has a customer. |
| LegacyGenerator.LegacyJobAt | generate_saas_data.py:62-72 | The row of site index `k`, day `j` and type `t` carries label `site_{(k-1)%3+1}`, that day and that type. |
| LegacyGenerator.LegacyJobsCover | generate_saas_data.py:61-72 | Every site index has a row for every day and job type. |
| LegacyGenerator.LegacyJobKeysCollide | generate_saas_data.py:62-72 | For any two customers, a site number, a day and a type, two different job rows carry the same (site_id, date, type) key. |

## Findings

| source | as written | input that shows it | evidently intended | confidence | as-written member | corrected member |
|---|---|---|---|---|---|---|
| generate_saas_data.py:62-72 | `customer_id` is computed for each site index (line 63) but never written. Job rows carry only `site_1` to `site_3`, so rows of different customers' sites cannot be told apart. | Customers 1 and 2, site number 1, any day and type: indices 1 and 4 produce two rows with the same (site_id, date, type). | Job rows identify their site: keyed by the site, with the owning customer attached. The relational generator's job table does this, so it serves as the corrected member; no separate corrected flat-generator job table is written. | medium, not executed | LegacyGenerator.LegacyJobKeysCollide | Generator.JobsOneRowPerType |

## Left out

- Reading and writing CSV files, `print` and `display` are not modelled. Tables are sequences of rows.
- The random generator and Faker are not modelled. Their outputs are inputs to the model, ranges included.
- Faker's e-mail format is not modelled: e-mails are arbitrary strings. Faker's e-mails within one pool are not guaranteed to differ, so `Generator.NoUserRepeatsAtSite` takes that as a hypothesis.
- Date arithmetic, `pd.date_range`, `strftime` and `pd.to_datetime` are not modelled. The date range is a sequence of `Date` values, and `Distinct(dates)` is assumed where a key needs it.
- The GiB conversion `(bytes / 1024**3).round(2)` involves floating point. It is the parameter `toGb`.
- Pandas' output order is not modelled: sorting of group-by keys, column order, the pivot's alphabetical column order and dtype changes after NaN. Group-by rows are kept in first-appearance order, and key sets, counts and values are stated independently of order.
- `users['month'] = activity['month'].max()` (02-unify line 35) is not modelled: no later step reads the column.
- Customer ids are integers. The relational generator writes `str(10**9 + i)`; the roll-up reads them back from CSV as integers. `Generator.CustomerIdsIssued` states the ten-digit width.
- Two source lines would stop the relational generator before any table is written, and are not modelled:
  - Faker is used without being imported (01-generate line 6).
  - A positional argument follows a keyword argument (01-generate line 87).

  The model describes the generator as its authors evidently meant it to run.
- The roll-up's last line displays an undefined name (02-unify line 58). It fails with a `NameError` only after the summary CSV has been written (line 56). It is not modelled, since `display` is not modelled.
- The site rejection loop runs over a finite candidate sequence. `None` means "the supplied draws ran out", a case the real loop never reaches. `Generator.IssueSitesSucceeds` gives a sufficient condition for success.
- The site table's success depends on draws. `Generator.SiteTableFacts` states its properties on the `Some` branch.
