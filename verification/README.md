# CPDO Zoning Management System — verified model of the core

The CPDO Zoning Management System records zoning applications for a city
planning office. This project models its core logic in Dafny and proves
properties of it:

- **Due dates** (`client/app/lib/date-utils.ts`). A due date is counted 12
  working days after the date of application. Working days exclude
  Saturdays, Sundays and a fixed table of Philippine holidays (module
  `DateUtils`). The calendar on integer day numbers is in `Calendar`. The
  counting itself is generic in module `WorkingDays`.
- **Application numbers** (`server/app/Http/Controllers/DocumentController.php`).
  The next zoning application number is `LC-<year>-NNNN`: the latest stored
  number for the year plus one, zero-padded. The module also models the
  dashboard's twelve monthly document counts (`DocumentController`). PHP's
  `intval`, `substr`, `str_pad` and `trim` are modelled on strings in
  module `Text`.
- **New-document wizard** (`client/app/components/documents/new-document-modal.tsx`).
  This is a five-step form. Each step's fields are checked before moving on.
  The due date is recomputed when the date of application changes. An
  application number is fetched when the document title changes. Choosing a
  zoning or a barangay clears the dependent field (class
  `NewDocumentModal.Wizard`).
- **Account dialog** (`client/app/components/accounts/account-modal.tsx`).
  This is a three-step form with the password rules, the prefill from an
  existing user, and the role checkboxes (class `AccountModal.Dialog`).
- **Multi-select** (`client/app/components/ui/multi-select.tsx`). Selecting an
  option toggles it, the badge close button removes it, and the badge label
  is looked up (module `MultiSelect`). The list operations shared with the
  role checkboxes are in module `Lists`.
- **Sidebar** (`client/app/components/app-sidebar.tsx`). A menu item is shown
  exactly when one of the user's roles has the `view` permission on the
  item's resource (module `AppSidebar`).
- **Seeders** (`server/database/seeders/OrdinanceSeeder.php`,
  `LocationSeeder.php`). Both seeders read a JSON file of rows and carry the
  last named parent (zoning, or barangay) forward. Each parent is found or
  created by name, and each named child (type of project, or purok) is
  created under the current parent. Class `Seeding.Tables` holds the loop;
  modules `OrdinanceSeeder` and `LocationSeeder` supply the keys.

Days are integers counted from 1970-01-01 (day 0, a Thursday). The calendar
date of a day is reached from 1970-01-01 one calendar day at a time. That is
exactly what `setDate(getDate() + 1)` does on a JavaScript `Date` held at
local midnight.

The holiday table has 14 entries, including 08-26.

Lengths in the form rules are JavaScript string lengths: UTF-16 code units,
so a character beyond U+FFFF (an emoji, say) counts twice (`Text.Utf16Length`).

## Model

| member | source | states |
|---|---|---|
| Calendar.NextDate | client/app/lib/date-utils.ts:40 | the next calendar day is a valid date: within a month the day goes up by one, the last day of a month goes to the first of the next month, December 31 goes to January 1 of the next year |
| Calendar.CivilFromDays | client/app/lib/date-utils.ts:40-44 | every day number denotes a valid calendar date (the month and day getMonth and getDate read) |
| Calendar.Weekday | client/app/lib/date-utils.ts:42 | getDay is between 0 and 6, and day 0 (1970-01-01) and every seventh day from it is a Thursday |
| Calendar.NextPrevInverse | client/app/lib/date-utils.ts:40 | stepping one day forward and one day back, in either order, returns the same date |
| Calendar.CivilFromDaysNext | client/app/lib/date-utils.ts:40 | day number n+1 is the calendar day after day n, before 1970 as well as after |
| Calendar.WeekdayNext | client/app/lib/date-utils.ts:42 | getDay advances by one modulo 7 from each day to the next |
| DateUtils.HolidayTableWellFormed | client/app/lib/date-utils.ts:1-16 | no "MM-DD" key is listed twice, and every entry is a valid calendar day in every year |
| DateUtils.HolidayTable | client/app/lib/date-utils.ts:1-16 | a month and day's "MM-DD" key is in the holiday table exactly when the pair is one of the 14 listed month-day pairs |
| DateUtils.MonthDayKeyInjective | client/app/lib/date-utils.ts:43-45 | two month-day keys are equal exactly when month and day are equal |
| DateUtils.HolidayIsYearIndependent | client/app/lib/date-utils.ts:48 | whether a day is a holiday depends only on its month and day, never on its year |
| DateUtils.NoFourListedDays | client/app/lib/date-utils.ts:1-16 | no four consecutive days are all in the holiday table |
| DateUtils.UnlistedWeekday | client/app/lib/date-utils.ts:47-48 | every seven consecutive days contain a Monday-to-Friday day that is not a listed holiday |
| DateUtils.WorkingDayWithinWeek | client/app/lib/date-utils.ts:39-53 | after any day, a working day comes within seven days, so the counting loop always ends |
| DateUtils.CountsExactlyWorkingDays | client/app/lib/date-utils.ts:42-50 | the loop's test (not Saturday or Sunday, and the "MM-DD" key not in the table) holds exactly on working days |
| DateUtils.DueDate | client/app/lib/date-utils.ts:29-56 | counting n >= 1 working days ends on a working day after the start; the range (start, result] holds exactly n working days and every earlier day fewer; n <= 0 returns the start |
| DateUtils.DueDateNext | client/app/lib/date-utils.ts:39-53 | the due date for n+1 days is the first working day after the due date for n days |
| DateUtils.DueDateIncreasing | client/app/lib/date-utils.ts:39-53 | counting more working days ends strictly later |
| DateUtils.LoopStep | client/app/lib/date-utils.ts:40-52 | one loop iteration either reaches the next working day or stays before it |
| DateUtils.CalculateDueDate | client/app/lib/date-utils.ts:29-56 | the loop returns DueDate(start, n): the first day at which n working days have been counted |
| WorkingDays.DueDateCount | client/app/lib/date-utils.ts:39-53 | for any classification of working days that has one in every week, the n-th working day is where the count first reaches n |
| WorkingDays.NextWorkingDay | client/app/lib/date-utils.ts:39-53 | the next working day lies within seven days, and no day in between is a working day |
| Text.PhpIntValOfPadded | server/app/Http/Controllers/DocumentController.php:74-75 | intval reads back a zero-padded rendering of a non-negative number |
| Text.PhpIntValOfIntToString | server/app/Http/Controllers/DocumentController.php:74 | intval reads back the decimal rendering of any integer followed by non-digit text |
| Text.PhpIntVal | server/app/Http/Controllers/DocumentController.php:74 | intval gives 0 for a string without digits, and a negative value only when the string has a '-' |
| Text.Trim | server/database/seeders/OrdinanceSeeder.php:24-25 | trim returns a slice of its input that cuts off only white space at either end and neither starts nor ends with white space; "" exactly for all-white-space input |
| Text.Utf16Length | client/app/components/accounts/account-modal.tsx:43 | a string's JavaScript length lies between its number of characters and twice that, and is 0 only for "" |
| Text.Utf16LengthOfBmp | client/app/components/accounts/account-modal.tsx:43 | on characters up to U+FFFF the JavaScript length is the number of characters |
| Text.Utf16LengthOfAstral | client/app/components/accounts/account-modal.tsx:43 | every character beyond U+FFFF adds two to the JavaScript length |
| Text.Last | server/app/Http/Controllers/DocumentController.php:74 | substr(s, -4) is the last four characters, or all of a shorter string (characters stand for bytes; see Left out) |
| Text.PadLeft | server/app/Http/Controllers/DocumentController.php:75 | str_pad to the left pads to the width and keeps longer strings as they are |
| DocumentController.Latest | server/app/Http/Controllers/DocumentController.php:66-68 | the LIKE-prefix query ordered descending yields nothing exactly when no stored number starts with the prefix; otherwise it yields a stored number with the prefix that is the greatest of them |
| DocumentController.LatestIgnoresOtherKeys | server/app/Http/Controllers/DocumentController.php:66-68 | numbers of other years or prefixes do not change the result |
| DocumentController.LatestKeepsGreater | server/app/Http/Controllers/DocumentController.php:66-68 | storing a smaller number keeps the latest as it was |
| DocumentController.BeforeTotal | server/app/Http/Controllers/DocumentController.php:67 | the string order used for sorting is total on distinct strings |
| DocumentController.BeforeTransitive | server/app/Http/Controllers/DocumentController.php:67 | the string order is transitive |
| DocumentController.BeforeAfterPrefix | server/app/Http/Controllers/DocumentController.php:66-67 | a shared prefix does not change the order |
| DocumentController.SearchPrefix | server/app/Http/Controllers/DocumentController.php:55-64 | the search key is "LC-", then exactly the year's decimal rendering, then "-"; intval reads the year back from it |
| DocumentController.NextSuffix | server/app/Http/Controllers/DocumentController.php:75 | the padded successor has at least four characters, and for a last number of -1 or more intval reads it back as one more |
| DocumentController.NextApplicationNo | server/app/Http/Controllers/DocumentController.php:51-78 | the result starts with the search key; it is key + "0001" without a stored number, else key + the padded successor of the value of the stored number's last four characters (bytes in PHP; the same for ASCII numbers, see Left out) |
| DocumentController.NextSuffixRoundTrip | server/app/Http/Controllers/DocumentController.php:74-75 | for 0..9998 the next suffix is four digits whose value is one more |
| DocumentController.NextApplicationNoSequential | server/app/Http/Controllers/DocumentController.php:70-77 | after number n (below 9999) of a year, the next number has suffix n+1 |
| DocumentController.NumbersStopAt10000 | server/app/Http/Controllers/DocumentController.php:66-77 | after "...-9999" the next number is "...-10000"; once that is stored it still sorts before "...-9999", so the next number is "...-10000" again |
| DocumentController.MonthlyCounts | server/app/Http/Controllers/DocumentController.php:30-37 | twelve entries, months 1 to 12 with their English names, each count being the query's count for that month or 0 |
| NewDocumentModal.DueDateFor | client/app/components/documents/new-document-modal.tsx:145-153 | with a date of application the due date is the 12th working day after it (a later working day with exactly 12 working days up to it); without one it is empty |
| NewDocumentModal.StepFields0 | client/app/components/documents/new-document-modal.tsx:174-175 | the first step's field list validates exactly the first step's rules |
| NewDocumentModal.StepFields1 | client/app/components/documents/new-document-modal.tsx:176-177 | the second step's field list validates exactly the personnel rules, at least one person routed to |
| NewDocumentModal.StepFields2 | client/app/components/documents/new-document-modal.tsx:178-179 | the third step's field list validates exactly the location rules |
| NewDocumentModal.StepFields3 | client/app/components/documents/new-document-modal.tsx:180-181 | the fourth step's field list validates exactly the property rules |
| NewDocumentModal.FieldValid | client/app/components/documents/new-document-modal.tsx:63-93 | the due date, assisted-by and mezzanine fields are optional and always pass; on the default values exactly those pass |
| NewDocumentModal.Trigger | client/app/components/documents/new-document-modal.tsx:184 | trigger succeeds exactly when every listed field satisfies its schema rule |
| NewDocumentModal.ValidateStep | client/app/components/documents/new-document-modal.tsx:171-184 | validation of the active step succeeds exactly when that step is complete (the last step has no fields) |
| NewDocumentModal.Wizard.SetOpen | client/app/components/documents/new-document-modal.tsx:100 | the dialog's open flag takes the given value; the step and the values are unchanged |
| NewDocumentModal.Wizard.NextStep | client/app/components/documents/new-document-modal.tsx:171-188 | a complete step advances by one, stopping at the last step; an incomplete one stays; the values are unchanged |
| NewDocumentModal.Wizard.PrevStep | client/app/components/documents/new-document-modal.tsx:190-192 | the step goes back by one, stopping at the first |
| NewDocumentModal.Wizard.SetDateOfApplication | client/app/components/documents/new-document-modal.tsx:145-153 | setting the date also sets the due date to DueDateFor of it, and nothing else changes |
| NewDocumentModal.Wizard.SetDocumentTitle | client/app/components/documents/new-document-modal.tsx:155-169 | a non-empty title that changed takes the fetched number when the request succeeds; otherwise the number keeps its value |
| NewDocumentModal.Wizard.SelectZoning | client/app/components/documents/new-document-modal.tsx:311-314 | choosing a zoning clears the type of project |
| NewDocumentModal.Wizard.SelectBarangay | client/app/components/documents/new-document-modal.tsx:535-538 | choosing a barangay clears the purok |
| NewDocumentModal.Wizard.OnSuccess | client/app/components/documents/new-document-modal.tsx:235-241 | after a successful submission the dialog is closed, the values are the defaults and the step is the first |
| NewDocumentModal.ZoningChangeBlocksFirstStep | client/app/components/documents/new-document-modal.tsx:311-314 | after choosing a zoning the first step cannot be left until a type of project is picked again |
| NewDocumentModal.BarangayChangeBlocksLocationStep | client/app/components/documents/new-document-modal.tsx:535-538 | after choosing a barangay the location step cannot be left until a purok is picked again |
| NewDocumentModal.DefaultsIncomplete | client/app/components/documents/new-document-modal.tsx:120-142 | with the default values none of steps 1-4 can be left |
| AccountModal.PasswordsAgree | client/app/components/accounts/account-modal.tsx:45-53 | the refine passes exactly when the password is empty or equals its confirmation |
| AccountModal.FieldValid | client/app/components/accounts/account-modal.tsx:35-44 | the middle name and the confirmation always pass, as does an empty password; on the blank form the names, designation, section and roles fail |
| AccountModal.FormValid | client/app/components/accounts/account-modal.tsx:35-53 | a form that passes the whole schema also passes the checks of the personal-info and employment steps |
| AccountModal.PasswordRules | client/app/components/accounts/account-modal.tsx:43-53 | the password passes the schema and the refine exactly when it is empty, or is at least 8 UTF-16 code units long and equals the confirmation |
| AccountModal.PasswordLengthInCodeUnits | client/app/components/accounts/account-modal.tsx:43 | four characters beyond U+FFFF make a valid password, while seven characters up to U+FFFF do not |
| AccountModal.StepFields0 | client/app/components/accounts/account-modal.tsx:133-134 | the first step's field list validates exactly the personal-info rules |
| AccountModal.StepFields1 | client/app/components/accounts/account-modal.tsx:135-136 | the second step's field list validates exactly the employment rules, at least one role |
| AccountModal.Trigger | client/app/components/accounts/account-modal.tsx:139 | trigger succeeds exactly when every listed field satisfies its schema rule |
| AccountModal.ValidateStep | client/app/components/accounts/account-modal.tsx:130-139 | validation of the active step succeeds exactly when that step is complete (the security step has no fields) |
| AccountModal.Prefill | client/app/components/accounts/account-modal.tsx:103-114 | editing a user starts with the user's names, e-mail, designation and section, a missing middle name as "", the user's role ids in order, and empty passwords |
| AccountModal.PrefillKeepsPassword | client/app/components/accounts/account-modal.tsx:43-53 | a prefilled form always passes the password rules, so editing need not change the password |
| AccountModal.CheckRole | client/app/components/accounts/account-modal.tsx:304-312 | checking appends the role id; unchecking removes every copy of it and keeps the other ids in order and number |
| AccountModal.CheckThenUncheck | client/app/components/accounts/account-modal.tsx:304-312 | checking and then unchecking a role that was not selected restores the list |
| AccountModal.Dialog.NextStep | client/app/components/accounts/account-modal.tsx:130-143 | a complete step advances by one, stopping at the security step; an incomplete one stays |
| AccountModal.Dialog.PrevStep | client/app/components/accounts/account-modal.tsx:145-147 | the step goes back by one, stopping at the first |
| AccountModal.Dialog.OpenEffect | client/app/components/accounts/account-modal.tsx:99-128 | opening resets the step; the values become the prefill of the user, or blank without one |
| AccountModal.Dialog.SetRoleChecked | client/app/components/accounts/account-modal.tsx:303-312 | the roles become CheckRole of the old roles and nothing else changes |
| Lists.RemoveAll | client/app/components/ui/multi-select.tsx:42-44 | filtering out x removes every x and keeps every other value, with its number of occurrences |
| Lists.RemoveAllSubsequence | client/app/components/ui/multi-select.tsx:43 | the filtered list keeps the original order |
| Lists.RemoveAllAbsent | client/app/components/ui/multi-select.tsx:43 | filtering out an absent value changes nothing |
| Lists.RemoveAllAppended | client/app/components/ui/multi-select.tsx:43 | filtering out a value just appended removes it with the rest |
| Lists.RemoveAllNoDuplicates | client/app/components/ui/multi-select.tsx:43 | filtering keeps a list free of duplicates |
| MultiSelect.Unselect | client/app/components/ui/multi-select.tsx:42-44 | the item is gone; every other selection stays, in order and with its number of occurrences |
| MultiSelect.Toggle | client/app/components/ui/multi-select.tsx:101-111 | the option is selected afterwards exactly when it was not before; other selections keep their state; a new one is appended at the end, a selected one is removed as Unselect removes it |
| MultiSelect.ToggleTwice | client/app/components/ui/multi-select.tsx:105-111 | selecting and then deselecting an option restores the selection |
| MultiSelect.ToggleNoDuplicates | client/app/components/ui/multi-select.tsx:105-111 | toggling never creates a duplicate selection |
| MultiSelect.FindIndex | client/app/components/ui/multi-select.tsx:65 | find returns the first option with the value, or none |
| MultiSelect.BadgeLabel | client/app/components/ui/multi-select.tsx:65-75 | the badge shows no label exactly when no option has the value, otherwise the first such option's label |
| AppSidebar.HasViewPermission | client/app/components/app-sidebar.tsx:48-57 | permission needs a signed-in user with a non-empty role list |
| AppSidebar.VisibleItems | client/app/components/app-sidebar.tsx:48-60 | the filtered items keep their order, and each item occurs as often as in the input when the user has view permission on its resource, and not at all otherwise |
| AppSidebar.AccessibleItems | client/app/components/app-sidebar.tsx:17-60 | the same for the four fixed menu items |
| AppSidebar.NoUserNoItems | client/app/components/app-sidebar.tsx:49 | without a user no item is shown |
| AppSidebar.MissingPermissionsGrantNothing | client/app/components/app-sidebar.tsx:52-56 | roles without a permission list grant nothing |
| AppSidebar.GrantKeepsVisible | client/app/components/app-sidebar.tsx:52-56 | adding a permission to a role never hides a resource |
| AppSidebar.OtherPermissionGrantsNothing | client/app/components/app-sidebar.tsx:52-56 | adding a permission other than "view" changes no visibility |
| AppSidebar.GrantKeepsItems | client/app/components/app-sidebar.tsx:60 | adding a permission never removes a menu item |
| Seeding.Field | server/database/seeders/OrdinanceSeeder.php:24-25 | a present key reads as the trim of its value, a missing key as "" |
| Seeding.LastParentNone | server/database/seeders/OrdinanceSeeder.php:21-29 | there is no current parent exactly when every parent name read so far is blank |
| Seeding.LastParentIsRow | server/database/seeders/OrdinanceSeeder.php:27-29 | the current parent is named on some row and no later row names a parent |
| Seeding.ParentsAfterKeeps | server/database/seeders/OrdinanceSeeder.php:28 | existing parents stay, in front |
| Seeding.ParentsAfterHasRows | server/database/seeders/OrdinanceSeeder.php:27-29 | every non-blank parent name ends up in the parent table |
| Seeding.ParentsAfterOnlyRows | server/database/seeders/OrdinanceSeeder.php:27-29 | the parent table gains no name that no row names |
| Seeding.ParentsAfterNoDuplicates | server/database/seeders/OrdinanceSeeder.php:28 | firstOrCreate adds no duplicate parent name |
| Seeding.ReimportAddsNoParents | server/database/seeders/OrdinanceSeeder.php:28 | running the import a second time adds no parent |
| Seeding.NoChildBeforeParent | server/database/seeders/OrdinanceSeeder.php:31 | rows before the first non-blank parent name create no child |
| Seeding.CreatedUnderKnownParents | server/database/seeders/OrdinanceSeeder.php:31-36 | every child created has a non-blank name and a non-blank parent in the parent table |
| Seeding.CarriedForward | server/database/seeders/OrdinanceSeeder.php:21-36 | a row without a parent name adds its child under the parent carried forward from earlier rows |
| Seeding.RepeatedRowRepeatsChild | server/database/seeders/OrdinanceSeeder.php:32-35 | children are not de-duplicated: a repeated row creates its child twice |
| Seeding.Tables.FirstOrCreate | server/database/seeders/OrdinanceSeeder.php:28 | the id of the first parent with the name; the name is appended only when absent |
| Seeding.Tables.CreateChild | server/database/seeders/OrdinanceSeeder.php:32-35 | the child with the given parent id and name is appended and the parent table is unchanged |
| Seeding.Tables.ImportRow | server/database/seeders/OrdinanceSeeder.php:24-36 | one row's effect: the parent is found or created and becomes current, then the child is created under the current parent |
| Seeding.Tables.Import | server/database/seeders/OrdinanceSeeder.php:13-38 | without a file nothing changes; otherwise the parent table becomes ParentsAfter of the rows, and the new children are exactly Created of the rows, in order, each pointing at its parent |
| OrdinanceSeeder.Run | server/database/seeders/OrdinanceSeeder.php:13-38 | the import with keys "ZONING" and "Type of Project" |
| LocationSeeder.Run | server/database/seeders/LocationSeeder.php:13-38 | the import with keys "BARANGAY" and "PUROK" |

## Left out

- Time zones and daylight saving: a `Date` is taken to be at local midnight, so one `setDate(+1)` step is one calendar day.
- Formatting with date-fns (`"MMMM d, yyyy"`) and Carbon month names beyond the English name table: the due date is kept as a day number.
- `Carbon::now()` and the `year` query parameter: the year is a parameter.
- The database: a stored number list stands for the documents table; SQL `LIKE` is modelled as a plain prefix test, and the collation as code-point lexicographic order.
- Two requests computing the same next application number at once: concurrency is not modelled.
- CRUD endpoints, file uploads, attachment listing, e-mail jobs and submission (`onSubmit`, `createDocument`): these are I/O with no logic beyond passing values on.
- `intval` on exponent forms and overflow beyond 64 bits: the suffix is at most a few digits.
- Text.Last: PHP strings are bytes and `substr($s, -4)` takes the last four bytes, while the model takes the last four characters. The two agree when the last four characters are ASCII, which every number the application generates is; a stored number ending in non-ASCII text (the store and update endpoints accept any string) is not modelled.
- DocumentController.NextApplicationNo: reads the suffix through `Text.Last`, so it shares that limitation: for a latest number such as "LC-2026-12é" PHP reads the bytes "12" plus the two bytes of "é" and continues with 0013, while the model reads "-12é".
- Invalid JSON in a seeder file: `json_decode` returns null, `foreach` over null raises a warning that the framework turns into an exception, so the seeder fails and the tables stay as they were; only a missing file is modelled (as None).
- Non-string JSON values in a seeder row: every value is taken to be a string.
- Database ids: a parent's id is its position in the table.
- The e-mail format check of the account form: it is a parameter `isEmail`.
- The application-number request: its response is a parameter of `SetDocumentTitle` (None when it fails).
- SetDocumentTitle: the response is applied at once. The request is asynchronous and never cancelled, so a late response to an earlier title can overwrite the number after a newer title, or after `OnSuccess` has reset the form; that interleaving is not modelled.
- CalculateDueDate: the number of working days is an integer. In JavaScript it is a number, so a fraction counts up to its ceiling, NaN returns the start and Infinity never returns; the wizard always passes 12.
- The other minimum-length rules (`min(1)`) also count UTF-16 code units; they are modelled as "non-empty", which is the same thing.
- The recent-attachments query of the dashboard.
- The dialog's own open flag in the account modal: it belongs to the caller; only the step reset on opening is modelled.
- The map picker, toasts, query invalidation and rendering.
