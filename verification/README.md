# Resident administration and monthly fee (IPL) reconciliation — a Dafny model

The application keeps a register of the households of a housing estate
(residents, their family members, their house and family-card numbers) and
collects the monthly environmental maintenance fee, IPL ("Iuran Pengelolaan
Lingkungan"). This project models its logic:

- **Period reconciliation** (`src/lib/ipl-utils.ts`). Starting at the month of
  registration, it works out which calendar months ("periods", written
  `yyyy-MM`) are still unpaid up to the current month. It also works out which
  of the oldest unpaid months a payment covers, and what a number of unpaid
  months costs.
- **The fee page** (`AdminIpl.tsx`). It covers:
  - the monthly fee in force;
  - each row's debt, its status badge and its action button;
  - the validation of a payment and the request the payment sends;
  - the page's search.
- **The add-resident form** (`AddResidentForm.tsx`, `FamilyMemberFields.tsx`).
  It covers:
  - resizing the family-member list when the member count is chosen;
  - editing one member field;
  - submitting once the required fields are filled in.
- **The resident list** (`ResidentList.tsx`): the search filter and the age of
  a resident.
- **The dashboard statistics** (`Index.tsx`).
- **The record mappings** (`useResidents.ts`). They convert between the
  frontend resident and the `residents` table row (`fromDatabase`,
  `toDatabase`).
- **User administration** (`AdminUsers.tsx`): the profile a new user is created
  with, and how a user's house scope is shown.

The clock is a parameter: where the source reads `new Date()`, the model takes
`now` or `today`. Months are `Period(year, month)` values with a linear
`Index`. The month step `new Date(y, m + 1, 1)` is written out as JavaScript
evaluates it (`Periods.FullYear`, `Periods.NewMonthStart`, `Periods.Next`):
month 12 carries into the next year, and the constructor reads a year from 0
to 99 as 1900 to 1999. The date-fns `yyyy-MM` rendering is
written out with its era year: year 0 renders as `0001`. Paid periods are the
strings the database returns, and membership is decided on the rendering, as
`paidPeriods.includes(format(...))` does.

Both loops of the reconciliation are modelled as they are written
(`IplUtils.UnpaidWalk`, `IplUtils.AllocateWalk`). Each is then proved equal to
an independent reference definition, which filters the unpaid months out of a
window of the months the step visits (`IplUtils.UnpaidAmong` over
`IplUtils.Months`). The main facts follow from that equality:

- the payment covers the first `amount / monthly` unpaid months of the 120-month
  window;
- it never charges more than was entered;
- for a registration from year 100 on, it never skips an unpaid month;
- it is a prefix of the unpaid list.

Where the documented behaviour and the code differ, the model follows the code:

- The unpaid-period walk has no iteration cap. It runs from the registration
  month through the current month.
- Only the allocation loop has a cap, of 120 months.
- The allocation is not bounded by the current month. A registration in the
  future still gets months allocated, starting at the registration month
  (`IplUtils.FutureRegistrationStillAllocates`).
- A registration in a year from 0 to 99 steps straight into year 1900 plus
  that year, so the months in between are never reported
  (`IplUtils.TwoDigitYearGap`).
- The resident record carries no registration date, so every row hands
  `undefined` to the reconciliation. date-fns reads it as an Invalid Date.
  `calculateUnpaidPeriods` then reports nothing. `getNextPeriodsToPay` throws
  once a whole fee is entered. The row's "Mendaftar" caption throws on every
  render (`AdminIpl.MissingRegistrationDate`). The string-level functions take
  the date as an `Option`, with `None` for the Invalid Date.

Modules:

| module | file | what it holds |
|---|---|---|
| `Wrappers` | `wrappers.dfy` | `Option`, `Result` |
| `Seqs` | `seqs.dfy` | filter, prefix, take |
| `Arith` | `arith.dfy` | quotient and fee-count facts |
| `Text` | `text.dfy` | decimal digits, `parseInt` / `toString` on decimal integers, `toLowerCase`, `includes` |
| `Periods` | `periods.dfy` | dates, months, the month step, `yyyy-MM` |
| `IplUtils` | `ipl_utils.dfy` | the reconciliation |
| `Residents` | `residents.dfy` | record, row, mappings |
| `FamilyMemberFields` | `family_member_fields.dfy` | member edit |
| `AddResidentForm` | `add_resident_form.dfy` | add-resident form |
| `ResidentList` | `resident_list.dfy` | search, age, birth-date reading |
| `Dashboard` | `dashboard.dfy` | statistics |
| `AdminIpl` | `admin_ipl.dfy` | fee page |
| `AdminUsers` | `admin_users.dfy` | user page |

## Model

| member | source | states |
|---|---|---|
| Periods.NewMonthStart | src/lib/ipl-utils.ts:24 | The first-of-month date `new Date(year, monthIndex, 1)` denotes is a valid month. Its index is the requested month count from the year the constructor uses, with overflowing month numbers carried into the year. A year from 0 to 99 is read as 1900 plus it. |
| Periods.Next | src/lib/ipl-utils.ts:59 | Stepping always moves to a later month and never to an earlier year. Outside the years 0 to 99 it moves exactly one month. |
| Periods.NextIsConstructorStep | src/lib/ipl-utils.ts:24 | The step is the `Date` constructor applied to the following 0-based month index, carry included. |
| Periods.NextFromTwoDigitYear | src/lib/ipl-utils.ts:24 | From a year 0 to 99 the step moves 1900 years and one month, into a year from 1900 on. |
| Periods.TwoDigitYearStep | src/lib/ipl-utils.ts:59 | June of year 50 steps to July 1950 and December of year 99 to January 2000. June of year 100 steps to July of year 100, and December of year -1 to January of year 0. |
| Periods.FormatInjective | src/lib/ipl-utils.ts:18-19 | Two months of the common era render to the same `yyyy-MM` text only if they are the same month, so the membership test on strings identifies months. |
| Periods.FormatEraCollision | src/lib/ipl-utils.ts:18 | The era-year rendering makes year 0 and year 1 indistinguishable, which is why distinctness needs years of one era. |
| Periods.FormatOrder | src/lib/ipl-utils.ts:51 | For four-digit years, the string order of renderings is the chronological order of the months. |
| IplUtils.UnpaidWalk | src/lib/ipl-utils.ts:16-25 | Every month the loop keeps is unpaid and lies between the starting and the current month, and the kept months strictly increase. |
| IplUtils.UnpaidWalkIsWindow | src/lib/ipl-utils.ts:16-25 | The loop returns exactly the unpaid months among those it visits from the start while not past the current month, in visiting order. |
| IplUtils.WalkVisitsEveryMonth | src/lib/ipl-utils.ts:16-25 | Started from year 100 on, the loop reports every unpaid month from its start through the current month. |
| IplUtils.TwoDigitYearGap | src/lib/ipl-utils.ts:9-28 | For a registration in a year y from 0 to 99, no month from year 100 up to year 1900 + y is reported, whether paid or not. |
| IplUtils.UnpaidPeriods | src/lib/ipl-utils.ts:9-17 | A registration whose month is after the current month yields no unpaid months. |
| IplUtils.UnpaidMembership | src/lib/ipl-utils.ts:9-28 | Only unpaid months between the registration month and the current month, inclusive, are reported. For a registration from year 100 on, every such month is. |
| IplUtils.CalculateUnpaidPeriods | src/lib/ipl-utils.ts:9-28 | For an Invalid Date nothing is returned. Otherwise the returned strings are: none of them among the paid periods; empty for a future registration; free of duplicates in the common era; and in ascending string order while years have four digits. |
| IplUtils.PeriodsToPay | src/lib/ipl-utils.ts:40 | A non-positive fee, or an amount below one fee, allocates nothing. |
| IplUtils.AllocateWalkIsWindow | src/lib/ipl-utils.ts:46-61 | From any loop state, the loop takes the first `WholeFees(remaining, monthly)` unpaid months of what is left of the 120-month window. |
| IplUtils.AllocationIsWindowPrefix | src/lib/ipl-utils.ts:34-64 | For a positive fee, the allocation is the first `amount / monthly` unpaid months of the 120 months from registration, oldest first. |
| IplUtils.AllocationShape | src/lib/ipl-utils.ts:46-61 | Every allocated month is valid and unpaid, and lies between the registration month and the 120th month the loop visits. From year 100 on that is within 120 calendar months. The allocated months strictly increase. |
| IplUtils.AllocationCount | src/lib/ipl-utils.ts:50-56 | A payment covers at most `amount / monthly` months and at most 120. It covers exactly `amount / monthly` months when the window holds that many unpaid months. |
| IplUtils.AllocationAffordable | src/lib/ipl-utils.ts:50-55 | The covered months never cost more than the amount paid (nothing when it is negative). |
| IplUtils.AllocationCharge | src/lib/ipl-utils.ts:50-56 | The covered months cost at most the amount and at least one fee when any is covered. With enough unpaid months they cost exactly the amount less its remainder modulo the fee. |
| IplUtils.AllocationNoSkip | src/lib/ipl-utils.ts:46-61 | For a registration from year 100 on, no unpaid month between the registration month and the last covered month is passed over. |
| IplUtils.AllocationPrefixOfUnpaid | src/lib/ipl-utils.ts:9-64 | Whenever it is no longer, the allocation is a leading part of the unpaid list for the same registration and paid periods: payments settle the oldest debt first. |
| IplUtils.FutureRegistrationStillAllocates | src/lib/ipl-utils.ts:40-61 | With a registration after the current month nothing is unpaid, yet a payment of at least one fee is still allocated, starting with the registration month. |
| IplUtils.GetNextPeriodsToPay | src/lib/ipl-utils.ts:34-64 | The call throws exactly when the date is invalid and the guard lets the amount through, since the first `format` then throws. Otherwise the returned strings are: none among the paid periods; empty under the guard; free of duplicates in the common era; and in ascending string order for registrations from year 1 to 9989. |
| IplUtils.TotalIplDue | src/lib/ipl-utils.ts:71-73 | The total is non-negative for a non-negative fee and count, and zero exactly when the fee or the count is zero. |
| IplUtils.TotalIsFeePerMonth | src/lib/ipl-utils.ts:71-73 | The total due equals charging the monthly fee once for each unpaid month, added up month by month. |
| AdminIpl.MonthlyAmount | src/pages/AdminIpl.tsx:302 | No setting, or an empty one, is a fee of 0. A decimal setting is its value. |
| AdminIpl.TotalDebt | src/pages/AdminIpl.tsx:302-303 | A row's debt is zero exactly when the fee is zero or nothing is unpaid, and it is non-negative for a non-negative fee. |
| AdminIpl.DebtChargesEachUnpaidMonth | src/pages/AdminIpl.tsx:298-303 | If the row's unpaid list is `calculateUnpaidPeriods` of a registration date, the debt shown is one fee for each month it reports unpaid. |
| AdminIpl.StatusBadge | src/pages/AdminIpl.tsx:343-355 | The badge reads "Lunas" exactly when the stored status is "Lunas" and no month is unpaid. |
| AdminIpl.BadgeMeansSettled | src/pages/AdminIpl.tsx:343-355 | Suppose the row's unpaid list is `calculateUnpaidPeriods` of a registration date. Then "Lunas" is shown when the stored status says so and every month from the registration month through the current month is among the paid periods. For a registration from year 100 on it is shown only then. |
| AdminIpl.RowNeedsRegistrationDate | src/pages/AdminIpl.tsx:306-336 | A row renders exactly when its resident has a registration date, whatever amount is typed. |
| AdminIpl.MissingRegistrationDate | src/pages/AdminIpl.tsx:298-355 | With the Invalid Date, nothing is reported unpaid. The debt shown is 0, the badge follows the stored status alone, and the row cannot render. |
| AdminIpl.ActionFor | src/pages/AdminIpl.tsx:381-396 | The row offers "Batal" exactly when its badge is "Lunas" and the amount field is empty, and "Bayar" otherwise. |
| AdminIpl.HandlePay | src/pages/AdminIpl.tsx:62-71 | The pay request names the resident and the months given, and its amount is the fee times the number of months. |
| AdminIpl.PeriodsToCover | src/pages/AdminIpl.tsx:305-311 | Computing the months throws exactly when the date is invalid, the fee is positive and the typed amount reaches one fee. The months a typed amount covers are never already paid. An amount that does not read as a number covers nothing. |
| AdminIpl.LocalHandlePay | src/pages/AdminIpl.tsx:313-330 | There is no button exactly when the row cannot render. Otherwise, an empty or non-positive amount is rejected and the field is kept. The payment is refused for the minimum exactly when it covers no month. It is sent exactly when it covers some month and is confirmed, and it is then the request for those months, with the field cleared. |
| AdminIpl.PaymentIsWholeFees | src/pages/AdminIpl.tsx:306-330 | A payment that goes through records at least one fee and never more than was typed. It names distinct unpaid months. With enough unpaid months it charges the typed amount less its remainder modulo the fee. |
| AdminIpl.SearchResidents | src/pages/AdminIpl.tsx:79-83 | The rows shown are the residents whose lower-cased name, block or house number contains the lower-cased term, in list order, and all of them. |
| AdminIpl.EmptyIplSearchShowsAll | src/pages/AdminIpl.tsx:79-83 | An empty search term shows every resident. |
| Residents.EmptyMember | src/hooks/useResidents.ts:16-25 | A fresh family member carries all eight keys, each empty. |
| Residents.NominalTextParses | src/hooks/useResidents.ts:64 | The text a stored fee is shown as is empty exactly when no fee is stored, and reads back as the stored fee. |
| Residents.FromDatabase | src/hooks/useResidents.ts:48-66 | Each field comes from its column: a null optional column reads as "", a null count as 0, a null member list as empty, and a null fee as "". A stored fee is shown as text that parses back to it. |
| Residents.ToDatabase | src/hooks/useResidents.ts:69-88 | Each column comes from its field: an empty optional text is stored as null and any other text unchanged. The count and the member list are stored, the two moved columns are null, and an empty fee is null. |
| Residents.StoreThenLoad | src/hooks/useResidents.ts:48-88 | Storing a resident and loading the row gives back the same resident, except that the fee text is normalised. |
| Residents.StoreThenLoadCanonical | src/hooks/useResidents.ts:48-88 | For an empty or canonical decimal fee text, the round trip through the table is exact. |
| Residents.LoadThenStore | src/hooks/useResidents.ts:48-88 | Loading a row as `toDatabase` writes rows and storing it again writes the same columns. |
| FamilyMemberFields.UpdateMember | src/components/FamilyMemberFields.tsx:21-25 | Editing one field of one member sets exactly that field, keeps the member's other fields and every other member, and keeps the list length. |
| FamilyMemberFields.UpdateWithSameValue | src/components/FamilyMemberFields.tsx:21-25 | Writing a field's current value back changes nothing. |
| FamilyMemberFields.LaterEditWins | src/components/FamilyMemberFields.tsx:21-25 | Two edits of the same field leave only the second value. |
| FamilyMemberFields.IndependentEditsCommute | src/components/FamilyMemberFields.tsx:21-25 | Edits of different members, or of different fields, give the same list in either order. |
| AddResidentForm.FormEmptyMember | src/components/AddResidentForm.tsx:16 | The form's fresh member has only the name, birth-date and phone keys, each empty. |
| AddResidentForm.InitialState | src/components/AddResidentForm.tsx:19-38 | The form starts blank, with count "0" and no members, so the count agrees with the list. |
| AddResidentForm.HandleJumlahChange | src/components/AddResidentForm.tsx:40-51 | The chosen text is kept. A non-negative count makes the list exactly that long: growing keeps the old members and appends fresh ones, and shrinking keeps the leading members. A count equal to the length, or one that is not a number, leaves the list alone. |
| AddResidentForm.HandleSubmit | src/components/AddResidentForm.tsx:53-85 | Nothing is sent, and the state is unchanged, exactly when a required field is empty. Otherwise the inputs and members are sent and the form is reset. A consistent count is sent as the number of members. |
| AddResidentForm.StepKeepsConsistent | src/components/AddResidentForm.tsx:37-85 | Every edit, count choice offered by the select, member edit and submit keeps the count equal to the number of members. |
| AddResidentForm.RunKeepsConsistent | src/components/AddResidentForm.tsx:37-85 | Any session of such events keeps the count equal to the number of members. |
| AddResidentForm.SubmittedCountMatches | src/components/AddResidentForm.tsx:60-64 | Whatever happened since the form was opened, a submitted count equals the number of members submitted. |
| ResidentList.EmptyTermMatches | src/components/ResidentList.tsx:24-31 | Every resident matches an empty term. |
| ResidentList.FilterResidents | src/components/ResidentList.tsx:24-31 | The residents shown are exactly the matching ones, in list order. Name, address and block match case-insensitively; NIK, family-card and house numbers match case-sensitively. An empty term shows everyone. |
| ResidentList.EmptySearchShowsAll | src/components/ResidentList.tsx:24-31 | With an empty search box nothing is filtered out. |
| ResidentList.CalculateAge | src/components/ResidentList.tsx:33-42 | The age is the difference of the years, or one less exactly when this year's birthday is still to come. |
| ResidentList.AgeCountsBirthdays | src/components/ResidentList.tsx:33-42 | The age is the number of birthdays reached: the last one is on or before today, and the next one is after today. |
| ResidentList.AgeIsUnique | src/components/ResidentList.tsx:33-42 | Only the computed age has that property, so the age is the count of birthdays reached. |
| ResidentList.AgeOnBirthday | src/components/ResidentList.tsx:36-39 | On the birthday itself the full year difference is reached. |
| ResidentList.ParseIsoDate | src/components/ResidentList.tsx:35 | A birth date that reads as a date is a valid calendar date in `yyyy-MM-dd` shape. |
| ResidentList.ParseIsoDateRoundTrip | src/components/ResidentList.tsx:35 | Reading a date written as `yyyy-MM-dd` gives that date back, for four-digit years. |
| Dashboard.ComputeStats | src/pages/Index.tsx:16-42 | The total is the number of residents. Male plus female is at most the total. Children and settled residents are at most the total. Distinct family cards number between one and the total when there is a resident. An empty list gives all zeros. |
| Dashboard.KKSetMembers | src/pages/Index.tsx:35 | A family-card number is counted if and only if some resident carries it. |
| Dashboard.KKSetSize | src/pages/Index.tsx:35 | There are no more distinct family cards than residents, and at least one when there is a resident. |
| Dashboard.UniqueKKCountsEveryone | src/pages/Index.tsx:35 | The number of distinct family cards equals the number of residents if and only if no card number repeats. |
| Dashboard.SumIplAppend | src/pages/Index.tsx:38 | The fee total of two lists of residents is the sum of their totals. |
| Dashboard.TotalIplOfLoadedRows | src/pages/Index.tsx:38 | For residents loaded from the table, the fee total is the sum of the stored fees, with null counted as 0. |
| AdminUsers.BuildPayload | src/pages/AdminUsers.tsx:26-31 | Credentials and role are sent as entered. An admin is restricted to no house (both nulls) and a user to exactly the block and number entered. |
| AdminUsers.HouseScope | src/pages/AdminUsers.tsx:167 | The house column shows "-" exactly for an admin, and a block/number pair for a user. |
| AdminUsers.ScopeShowsEnteredHouse | src/pages/AdminUsers.tsx:167 | A user created with a non-empty block without '/' and a non-empty number is shown with that block before the slash and that number after it. |
| AdminUsers.EmptyBlockShownUnknown | src/pages/AdminUsers.tsx:167 | A user created with an empty block is shown with "?" in the block's place. |
| AdminUsers.ResetAfterSuccess | src/pages/AdminUsers.tsx:33-38 | After a successful insert the four text inputs (username, password, block, house number) are empty and the chosen role is kept. The next insert therefore sends empty credentials, and for a user an empty block. |
| AdminUsers.ResetKeepsOnlyRole | src/pages/AdminUsers.tsx:33-38 | Only the role survives a reset: forms with the same role reset to the same form, and a second reset changes nothing. |
| Text.ParseIntToString | src/hooks/useResidents.ts:86 | `Number` applied to the decimal text of an integer gives that integer back. |
| Text.IncludesSpec | src/components/ResidentList.tsx:24-31 | `includes` holds exactly when the term occurs at some position of the text. |

## Left out

- Supabase I/O. This covers the query and mutation hooks (`useResidents`, `useIpl`, `useProfiles`), the toasts, and the cache invalidation. Only their pure inputs and outputs are modelled; the database is not.
- Login and the `localStorage` role gate in `AdminUsers.tsx` and the admin menu. They are authentication and browser state, with no logic of their own.
- UI rendering: the cards, dialogs, tables and number formatting (`toLocaleString`). The `confirm` dialog is the `confirmed` parameter of `AdminIpl.LocalHandlePay`.
- The reset button's mutation (`handleReset`) and saving the fee setting. Each only forwards a value to the database.
- The edit and delete dialogs. They are outside the modelled core.
- The persistence of a payment. The page passes `periods`, but the pay mutation reads a single `period` (`src/hooks/useIpl.ts:52`); the model stops at the request that `handlePay` builds.
- `useResidentUnpaidPeriods` and `useResidentPaidPeriods` are not part of this model. They are not defined in `src/hooks/useIpl.ts`. The paid periods and the unpaid list are parameters.
- The resident record has no `createdAt` field, although the page reads `resident.createdAt`, so every row receives the Invalid Date. The string-level functions model it as `None`. The period-level functions and lemmas take a valid `Date`: they state what the reconciliation does for a resident that has a registration date.
- AdminIpl.DebtChargesEachUnpaidMonth: holds only if the row's unpaid list is `calculateUnpaidPeriods` of a registration date. The hook that supplies the list is not defined, and the page has no registration date to give it. For the Invalid Date the list is empty (`AdminIpl.MissingRegistrationDate`).
- AdminIpl.BadgeMeansSettled: holds only under the same assumption about the unpaid list. The "only then" direction is stated from year 100 on, because for earlier registrations the walk skips months (`IplUtils.TwoDigitYearGap`).
- IplUtils.UnpaidMembership: that every unpaid month in range is reported is stated from year 100 on. A registration in a year y from 0 to 99 jumps to year 1900 + y, and the months in between are never reported (`IplUtils.TwoDigitYearGap`).
- IplUtils.AllocationNoSkip: stated from year 100 on, for the same reason.
- IplUtils.AllocationShape: the bound of 120 calendar months is stated from year 100 on. Before that the bound is the 120th month the loop visits, which lies after the jump.
- Periods.Next: the range of a JavaScript `Date` (about 275,760 years either side of 1970) and local-time offsets are not modelled. A step beyond the range would give an Invalid Date.
- IEEE-754 numbers. Amounts are unbounded integers: no fractions, no rounding, and no overflow beyond 2^53.
- AdminIpl.MonthlyAmount: only a setting that is entirely a decimal integer is read as its value; any other setting is taken as 0. The source's `parseInt` reads the leading integer of the text: "1.5", "1e5" and "12abc" give 1, 1 and 12, and " 7" gives 7. A text with no leading integer is NaN, which shows a NaN debt and makes every allocation empty, as the 0 of the model does.
- AdminIpl.EnteredAmount: `parseInt`'s leniency is not modelled. Leading blanks, a `+` sign, trailing characters ("12abc") and fractions ("1.5") read as None (NaN), not as their numeric prefix.
- AdminIpl.PeriodsToCover: inherits the `parseInt` simplification above.
- AdminIpl.LocalHandlePay: inherits the `parseInt` simplification above.
- AddResidentForm.HandleSubmit: a count that is not a number is sent as 0. The source sends NaN, which the select never produces.
- AddResidentForm.HandleJumlahChange: inherits the `parseInt` simplification. The select only offers "0" to "10".
- Residents.ToDatabase: a fee text that is not a decimal integer is stored as null. The source computes NaN, which becomes null in JSON; `Number`'s other accepted forms (blanks, exponents, hexadecimal) are not modelled.
- Dashboard.ComputeStats: `Number(text) || 0` is modelled on decimal integers only.
- Text.ToLower: lower-cases ASCII letters only. Full Unicode case mapping is not modelled.
- ResidentList.ParseIsoDate: only `yyyy-MM-dd` is read, with month 1–12 and day 1–31. Other formats that `new Date` accepts, day overflow (31 February), and the time-zone shift of a date-only string read as UTC are not modelled.
- ResidentList.CalculateAge: takes the parsed dates. The NaN age of an unreadable birth date appears only in `Dashboard.IsChild`, which does not count such a resident.
- Periods.FormatOrder: string order matches calendar order only for years 1 to 9999. Five-digit years and years before the common era are outside it.
- IplUtils.CalculateUnpaidPeriods: ascending string order is stated for years up to 9999 only. Distinctness is stated from year 1 on, because `yyyy` renders the era year and years 0 and 1 collide (`Periods.FormatEraCollision`).
- IplUtils.GetNextPeriodsToPay: ascending string order is stated only for registrations up to year 9989, so that the 120-month window stays within four-digit years. Distinctness is stated from year 1 on.
