# money_magnet — a Dafny model of the finance dashboard's core logic

money_magnet is a personal-finance web app. Users record transactions (revenue or expense,
each under a category), import them from a spreadsheet, scroll through paged lists of
transactions and categories, and see a dashboard with a twelve-month chart, a revenue-by-category
pie and this month's figures next to last month's. The profile pages show an avatar and edit
the account. The same app handles sign-up and password-reset requests.

This project models the logic behind those screens, one Dafny module per concern:

| file | module | what it models |
|---|---|---|
| `wrappers.dfy` | `Wrappers` | optional values (JavaScript's null/undefined) |
| `types.dfy` | `Types` | categories, transactions, dates (year, 0-based month, millisecond timestamp) |
| `analytics.dfy` | `Analytics` | the monthly series, the revenue distribution and the current metrics |
| `transaction_service.dfy` | `TransactionService` | row normalisation, page ranges, the rows written by insert and edit |
| `import_csv.dfy` | `ImportCsv` | the spreadsheet checks and the import page's state |
| `paged_list.dfy` | `PagedList` | the infinite-scroll list of the transactions and categories pages |
| `home.dfy` | `Home` | the dashboard's in-place sort and its "recent transactions" table |
| `text_checks.dfy` | `TextChecks` | JavaScript whitespace and trimming, the e-mail pattern, falsiness fallbacks |
| `profile.dfy` | `Profile` | display name, initials, avatar and detail rows of the navigation bar and settings page |
| `edit_profile.dfy` | `EditProfile` | the profile editor's submit handler |
| `forgot_password.dfy` | `ForgotPassword` | the password-reset request handler |
| `register.dfy` | `Register` | the sign-up handler |

Calculations that only compute a value are functions, with lemmas about them. The loops of the
source are methods with loop invariants: the monthly series, the distribution fold, the row
check of the import and the dashboard's in-place sort. Page components that update state are
classes, and each handler is a method with a `modifies` clause that states the whole new state.
Everything outside the app is a parameter: the backend (Supabase), the spreadsheet reader, the
clock and the locale formatting. Parameters are the categories fetched, the page a fetch
returned, the outcome of an update call (`Done` or `Thrown`, with the error's texts), the
current year and month, and the date and currency formatters.

The metrics compare January with month index 5 (June), not with December
(src/services/analytics.ts:68); `Analytics.PreviousMonth` follows the code.

## Model

| member | source | states |
|---|---|---|
| Analytics.MonthPoint | src/services/analytics.ts:16-33 | a month's point carries that month's label, a non-negative expense and profit = revenue − expense |
| Analytics.MonthlyData | src/services/analytics.ts:12-36 | twelve points, January first; point m is exactly the revenue, expense magnitude and profit of month m of the given year |
| Analytics.FirstMonthsRevenue | src/services/analytics.ts:16-20 | the revenue points of the first k months add up to the revenue of that year's transactions dated before month k |
| Analytics.FirstTwelveMonthsAreYear | src/services/analytics.ts:16-17 | the months 0..11 cover every transaction of the year |
| Analytics.MonthlyRevenueCoversYear | src/services/analytics.ts:12-36 | the twelve monthly revenues add up to the revenue of the whole year; other years contribute nothing |
| Analytics.EmptyMonthIsZero | src/services/analytics.ts:17-26 | a month with no transaction of the year has revenue, expense and profit 0 |
| Analytics.OtherYearIgnored | src/services/analytics.ts:17 | a month's point depends only on the transactions of its year: it equals the point computed from those alone |
| Analytics.InsertedOtherYearIgnored | src/services/analytics.ts:17 | a transaction of another year inserted anywhere in the list changes no point of the series |
| Analytics.DistinctNames | src/services/analytics.ts:43-52 | the dictionary's keys are every revenue category name, each once, and nothing else |
| Analytics.RevenueDistribution | src/services/analytics.ts:40-53 | one slice per distinct revenue category name, in first-occurrence order, holding the revenue booked under that name; the slices add up to the total revenue |
| Analytics.FoldByName | src/services/analytics.ts:43-50 | the loop of the fold ends with one entry per distinct revenue name, keys in first-occurrence order, each holding the sum booked under that name |
| Analytics.Accumulate | src/services/analytics.ts:45-48 | one fold step adds the amount to the name's entry, a missing entry counting as zero, and leaves other names alone |
| Analytics.FoldStep | src/services/analytics.ts:43-50 | folding one more transaction keeps the dictionary equal to the per-name sums of the transactions seen, keys in insertion order |
| Analytics.SlicesOfFold | src/services/analytics.ts:52 | the entries of the finished dictionary are the distinct names with their sums, adding up to the total |
| Analytics.DistributionSum | src/services/analytics.ts:43-52 | grouping by category name loses nothing: the per-name sums add up to the sum of all amounts |
| Analytics.SumPerNameSnoc | src/services/analytics.ts:45-48 | one more transaction adds its amount to exactly the entry of its own name |
| Analytics.PreviousMonth | src/services/analytics.ts:68 | the comparison month is the month before, except that January is compared with month 5 (June) |
| Analytics.Margin | src/services/analytics.ts:96-97 | the margin times the revenue is 100 × profit when revenue is positive, otherwise the margin is 0 |
| Analytics.Growth | src/services/analytics.ts:99-101 | the growth times the baseline is 100 × the change when the baseline is positive, otherwise 0 |
| Analytics.CurrentMetrics | src/services/analytics.ts:66-114 | this month's figures equal the monthly series' point for the month; margin and growths compare them with the previous month's point of the same year; the margin delta is in percentage points |
| Analytics.GrowthSign | src/services/analytics.ts:99-101 | with a positive baseline, growth is non-negative iff the value did not fall, and zero iff it is unchanged |
| Analytics.MarginAtMostHundred | src/services/analytics.ts:78-96 | since the expense is a magnitude, the margin never exceeds 100 % |
| TransactionService.MapTransaction | src/services/transactionService.ts:16-39 | scalar fields are copied, a missing payment method stays missing, the category is the joined record, the first of a joined array, or the "Sem categoria" placeholder |
| TransactionService.MapTransactionRoundTrip | src/services/transactionService.ts:16-39 | a transaction read back from its own row is unchanged |
| TransactionService.JoinShapesAgree | src/services/transactionService.ts:23-35 | a joined array gives what its first record alone gives; an empty array gives what no join gives |
| TransactionService.PageRange | src/services/transactionService.ts:78-81 | page p covers the 20 indices starting at (p − 1) × 20 |
| TransactionService.ConsecutivePagesAdjacent | src/services/transactionService.ts:79-81 | the next page starts right after this one ends |
| TransactionService.PagesDisjoint | src/services/transactionService.ts:79-81 | distinct pages share no row |
| TransactionService.EveryRowOnSomePage | src/services/transactionService.ts:79-81 | every row index is on some page numbered from 1 |
| TransactionService.FindByName | src/services/transactionService.ts:131 | the result is the first category with exactly that name, and none exactly when no category has it |
| TransactionService.FormatRow | src/services/transactionService.ts:130-140 | the row written for one imported transaction: date, description and status copied, the amount's magnitude, the user's id, and the id of a category with the imported name, or 6 when no category has it |
| TransactionService.InsertPlan | src/services/transactionService.ts:121-144 | nothing is sent for an empty list; otherwise one row per input, in order, each the row `FormatRow` builds for it: the amount's magnitude, the user's id and the id of the first category of that name, or 6 when there is none |
| TransactionService.CategoryIdIsFirstMatch | src/services/transactionService.ts:131-137 | the imported row gets the id of the first category bearing its name |
| TransactionService.InsertIgnoresSign | src/services/transactionService.ts:135 | the sign of an imported amount never reaches the database |
| TransactionService.EditPayload | src/services/transactionService.ts:174-187 | the update holds the fields as given and the magnitude of the amount |
| TransactionService.EditIgnoresSign | src/services/transactionService.ts:180 | editing writes the same row whatever the sign entered |
| ImportCsv.AbsentColumns | src/pages/ImportCSV.tsx:48-50 | the missing columns are exactly the required ones the first row lacks, in the required order |
| ImportCsv.IncompleteRowNumbersSpec | src/pages/ImportCSV.tsx:65-72 | the reported row numbers are exactly the 1-based numbers of the rows with a blank required cell, ascending |
| ImportCsv.InvalidRows | src/pages/ImportCSV.tsx:65-72 | the loop over the rows collects exactly those row numbers |
| ImportCsv.Validate | src/pages/ImportCSV.tsx:32-79 | an empty sheet is refused as empty and nothing else is; when the first row lacks a required column the error lists exactly the absent ones, in the required order; a non-empty sheet with every column and a blank required cell is refused with the blank-cell error, which lists exactly the incomplete rows, ascending, and is given only for such a sheet |
| ImportCsv.CheckSheet | src/pages/ImportCSV.tsx:32-79 | the early returns give exactly the verdict `ImportCsv.Validate` states: empty sheet, then missing columns, then blank cells, the first check that fails deciding |
| ImportCsv.AcceptedIffComplete | src/pages/ImportCSV.tsx:32-84 | a sheet is accepted iff it has a row, its first row has all five required columns and no row has a blank required cell; it is then imported unchanged |
| ImportCsv.DecimalString | src/pages/ImportCSV.tsx:74 | a number is printed as decimal digits with no leading zero |
| ImportCsv.DecimalRoundTrip | src/pages/ImportCSV.tsx:74 | reading the printed digits back gives the number |
| ImportCsv.MissingColumnsNamed | src/pages/ImportCSV.tsx:54-58 | the missing-columns message contains the name of every missing column |
| ImportCsv.IncompleteRowsNamed | src/pages/ImportCSV.tsx:73-75 | the incomplete-rows message contains the printed number of every incomplete row |
| ImportCsv.SuccessMessageCounts | src/pages/ImportCSV.tsx:83 | the success message contains the row count, printed in digits that read back as that count |
| ImportCsv.ImportPage.HandleFileUpload | src/pages/ImportCSV.tsx:14-94 | no file changes nothing; a failed read (the reader has no error handler) leaves loading on with no message and the data untouched; a workbook that cannot be parsed or a refused sheet shows its error and no data; an accepted sheet becomes the data with the row count in the success message; loading ends whenever the file was read |
| PagedList.Unseen | src/pages/Transactions.tsx:54-58 | the incoming items kept are those whose id is not already listed, in page order, each as often as the page holds it |
| PagedList.Merge | src/pages/Transactions.tsx:54-58 | a merge keeps the old list as its prefix and appends the page's items with a new id, in page order and with the page's repeats |
| PagedList.MergeKeepsIdsUnique | src/pages/Transactions.tsx:54-58 | if neither the list nor the page repeats an id, the merged list repeats none |
| PagedList.PageRepeatsKept | src/pages/Transactions.tsx:54-58 | an example: a page holding the same new entry twice appends it twice |
| PagedList.RemoveId | src/pages/Transactions.tsx:108 | the list after a delete holds the other entries in their order, each as often as before, and no entry with that id |
| PagedList.RemoveAbsentId | src/pages/Transactions.tsx:108 | deleting an id that is not listed changes nothing |
| PagedList.PagedList.BeginLoad | src/pages/Transactions.tsx:43-50 | nothing happens while loading or after the end; otherwise loading starts for the current page |
| PagedList.PagedList.FinishLoad | src/pages/Transactions.tsx:51-71 | an empty page ends the scrolling, a non-empty one is merged and advances the page by one, a failure sets the error message; loading ends in every case |
| PagedList.PagedList.ConfirmDelete | src/pages/Transactions.tsx:105-118 | a successful delete removes the id and reports success; a failure keeps the list and shows the error's message or the default; the modal closes |
| PagedList.NewTransactionsList | src/pages/Transactions.tsx:43-72 | the transactions page starts empty at page 1, with more to load |
| PagedList.NewCategoriesList | src/pages/Categories.tsx:42-72 | the categories page starts empty at page 1, with more to load |
| Home.SortedNewestSpec | src/pages/Home.tsx:52-53 | the stable newest-first order is newest first, holds exactly the fetched entries, and keeps entries with equal timestamps in their fetched order |
| Home.SortNewestFirst | src/pages/Home.tsx:52-53 | the list array itself becomes the stable newest-first order of what it held: sorted, a permutation, ties in fetched order |
| Home.InsertIntoPrefix | src/pages/Home.tsx:53 | one insertion step places the next entry behind every earlier entry at least as new, leaving the rest of the array alone |
| Home.RecentEntries | src/pages/Home.tsx:54-59 | at most six rows, the first ones of the sorted list, fields copied, date formatted, value the formatted magnitude |
| Home.RecentTransactions | src/pages/Home.tsx:52-59 | the state array becomes the stable newest-first order of what was fetched, in place, and the rows are its first six |
| Home.KeptAreNewest | src/pages/Home.tsx:52-55 | the rows shown come from the fetched list and nothing left out is newer than the last row shown |
| Home.ShownValue | src/pages/Home.tsx:157 | revenue shows the value as is, anything else with a leading minus |
| Home.MinusMarksExpense | src/pages/Home.tsx:157 | a row shows a minus exactly when its category is an expense, whatever the sign of the stored amount |
| TextChecks.TextStart | src/pages/EditPerfil.tsx:23 | the first non-whitespace position at or after the start, everything before it whitespace |
| TextChecks.TextEnd | src/pages/EditPerfil.tsx:23 | the position after the last non-whitespace character, everything after it whitespace |
| TextChecks.Trim | src/pages/EditPerfil.tsx:23 | the trimmed string is the part of the string between leading and trailing whitespace, and neither starts nor ends with whitespace |
| TextChecks.BlankIffAllSpace | src/pages/EditPerfil.tsx:23 | a string trims to nothing iff it is made of whitespace only |
| TextChecks.IndexOf | src/pages/EditPerfil.tsx:19 | the first position of the character, or the length when it is absent |
| TextChecks.CountOne | src/pages/EditPerfil.tsx:19 | a character occurs once iff its occurrence at a given position is the only one |
| TextChecks.ValidEmailIffPattern | src/pages/EditPerfil.tsx:19 | the executable e-mail check accepts exactly the strings the pattern matches |
| TextChecks.EmptyEmailFailsPattern | src/pages/ForgotPassword.tsx:16 | the empty string fails the pattern, so the emptiness test in front of it decides nothing |
| TextChecks.SampleAccepted | src/pages/ForgotPassword.tsx:16 | "a@b.c" matches the pattern |
| TextChecks.SampleWithoutTopLevel | src/pages/ForgotPassword.tsx:16 | "a@b." does not match |
| TextChecks.SampleWithSpace | src/pages/ForgotPassword.tsx:16 | "a b@c.d" does not match |
| TextChecks.SampleWithTwoAts | src/pages/ForgotPassword.tsx:16 | "a@b@c.d" does not match |
| TextChecks.JoinShowsParts | src/pages/ImportCSV.tsx:55-57 | every part joined into a message appears in it |
| TextChecks.OrElse | src/pages/EditPerfil.tsx:40 | the fallback is used exactly when the value is missing or empty; otherwise the value is returned |
| Profile.DisplayName | src/components/NavBar.tsx:12 | the name if present (even empty), else the e-mail if present, else "Usuário" |
| Profile.Split | src/components/NavBar.tsx:14 | splitting yields at least one piece and no piece contains the separator |
| Profile.JoinSplit | src/components/NavBar.tsx:14 | joining the pieces with the separator gives back the string |
| Profile.Words | src/components/NavBar.tsx:14-15 | the words are the non-empty pieces of the split at spaces, in order and each as often as it occurs; none is empty or holds a space |
| Profile.NonEmpty | src/components/NavBar.tsx:15 | the non-empty pieces, in their order, each as often as it occurs, and no empty one |
| Profile.LeadingSpaceIgnored | src/components/NavBar.tsx:14-15 | a leading space does not change the words |
| Profile.Initials | src/components/NavBar.tsx:13-18 | as many letters as words, at most two, each the upper-cased first letter of its word, in order |
| Profile.UpperChar | src/components/NavBar.tsx:17 | a lower-case ASCII or Latin-1 letter becomes its capital ("ÿ" becomes "Ÿ"); every other character is unchanged |
| Profile.UpperCharIdempotent | src/components/NavBar.tsx:17 | upper-casing a capital changes nothing |
| Profile.InitialsOfFallbacks | src/components/NavBar.tsx:12-18 | the anonymous name gives "U", an empty name gives no initials |
| Profile.AvatarFor | src/components/NavBar.tsx:51-61 | a non-empty avatar URL gives the picture with the display name as alt text, otherwise the initials badge |
| Profile.Heading | src/pages/Settings.tsx:51 | the settings heading (the name if non-empty, else the display name) always equals the display name |
| Profile.DetailRow | src/pages/Settings.tsx:74-78 | a detail row shows "-" exactly when the value is missing, empty or itself "-", and the value otherwise |
| EditProfile.Updates | src/pages/EditPerfil.tsx:30-36 | the e-mail update is sent iff the address changed, the name update iff the name changed, each at most once, e-mail first |
| EditProfile.EditProfilePage.constructor | src/pages/EditPerfil.tsx:7-12 | the fields start from the user's address and name, or empty |
| EditProfile.EditProfilePage.Submit | src/pages/EditPerfil.tsx:14-44 | an address not matching the pattern is refused before the name is looked at, a blank name before any call; otherwise the changed fields are sent in order, stopping at the first failure, whose message (or the default) is shown; success only when every call went through |
| EditProfile.EditProfilePage.SendUpdates | src/pages/EditPerfil.tsx:28-43 | the calls sent, the message shown and loading cleared on every path |
| ForgotPassword.ForgotPasswordPage.Submit | src/pages/ForgotPassword.tsx:11-30 | an address not matching the pattern is refused without a call; otherwise one reset request is sent, then the neutral success message or the error's message (or the default) is shown and loading ends |
| Register.SignUpFailureMessage | src/pages/Register.tsx:37 | the error's description if non-empty, else its message if non-empty, else "Erro desconhecido" |
| Register.RegisterPage.Submit | src/pages/Register.tsx:15-43 | a password mismatch is reported first, then any empty field; only then is exactly one sign-up sent with the three fields, and a failure shows its message; loading ends |

## Left out

- Backend calls (Supabase queries, auth, user updates, deletes) are not modelled. Their results are parameters: the rows fetched, the categories, the user id, an outcome per call.
- Reading the workbook (FileReader and the XLSX library) is a parameter: a failed read, a workbook that could not be parsed, or the parsed rows.
- The current year is read once when the analytics module loads, and the current month at each call; both are parameters here.
- Date parsing and time zones are not modelled. A date is given as year, month index and millisecond timestamp, as the app reads them from JavaScript `Date` objects.
- Amounts are integers, not floating point: rounding of JavaScript numbers is not modelled. Margins and growths are exact reals.
- Locale formatting (`toLocaleDateString`, the currency formatter) is passed in as functions.
- Analytics.RevenueDistribution: the dictionary is a plain object, and two kinds of category name behave differently there, which the model does not capture. Integer-like names are listed first, in numeric order, while the model keeps insertion order. Names of `Object.prototype` properties misbehave: for "__proto__" the lookup finds the prototype, the number is never stored and no slice appears; for "constructor", "toString" and the like the lookup finds a function, so the value becomes a string. The model gives an ordinary numeric slice for all of these.
- Profile.UpperChar: upper-casing covers ASCII and Latin-1 letters only. Characters whose upper case is longer ("ß" gives "SS") or lies outside Latin-1 (such as "µ") are not modelled, nor are UTF-16 surrogate pairs in a first letter.
- Profile.Initials: inherits the limits of Profile.UpperChar.
- React plumbing is not modelled: rendering, effects, the order in which state updates become visible, concurrent handler runs, the timers that clear messages, the IntersectionObserver that triggers loading, the delete modal's opening, and navigation.
- The charts, the theme and the dashboard greeting are presentation only.
- The thin pages (Login, UpdatePassword, EditTransaction, EditCategory, AddCategory) and the URL token parsing of the password-update page are outside the modelled core.
- TransactionService: the default page argument and the backend's ordering of rows are not modelled; a page is given by its number.
- ForgotPassword.ForgotPasswordPage.Submit: whether the account exists is not modelled, since the page shows the same message either way.
