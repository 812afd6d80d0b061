# Finanzas Personales: credential check, monthly dashboard and owner-checked edits

This project models, in Dafny, the logic inside a small Flask personal-finance application (`app.py`) and two string helpers from its browser script (`static/js/app.js`):

- **Password verification.** A stored hash that starts with `$2b$` is checked with bcrypt. Any other stored hash is checked with Werkzeug's `check_password_hash`. An absent or empty hash is always rejected. An exception from either checker counts as a rejection (fail closed).
- **Login.** `api_login` rejects a request in a fixed order: missing email or password (400), unknown user (401), inactive user (401), no password set (401), wrong password (401). Only a successful login writes `user_id`, `user_email` and `user_name` into the session.
- **Monthly dashboard.** `dashboard_summary` takes the user's transactions whose `fecha` string lies in `["{month}-01", "{month}-32")`. From them it computes:
  - the income total and the expense total (absolute amounts);
  - the balance;
  - a per-category expense map, built in a dictionary loop;
  - the ten latest rows, from a stable date-descending sort.
- **Owner-checked mutations.** Update and delete, for transactions and for fixed expenses, first look the row up by (id, owner) and answer 404 when nothing matches. Transactions are owned by user id. Fixed expenses are owned by the user's phone number.
- **String helpers.** `capitalize` and `truncateText`.

The remote tables are sequences of rows. The session is a class holding a map. The two cryptographic checkers are function-valued parameters that either return a boolean or raise. The clock is a parameter: the current month.

Modules:

| module | file | what it holds |
|---|---|---|
| `Options` | options.dfy | `Option` |
| `Lex` | lex.dfy | code-point lexicographic string order: Python's `str` order, used by the sort, and the order the model takes for the database's window comparison |
| `Passwords` | passwords.dfy | `is_bcrypt_hash`, `verify_password` |
| `Auth` | auth.dfy | the users row, `api_login` as a decision function, the `Session` class (`api_login`, `api_logout`) |
| `Ledger` | ledger.dfy | the transactions row, the month window, the totals, the category loop |
| `Dashboard` | dashboard.dfy | the stable sort, the ten latest rows, `dashboard_summary` |
| `Ownership` | ownership.dfy | the owner-checked update/delete rule, `TransactionTable`, `FixedExpenseTable` |
| `TextHelpers` | text_helpers.dfy | `capitalize`, `truncateText` |

Notes on semantics:

- Python's `<` on `str` is lexicographic by code point, with a proper prefix sorting first. Dafny's `<` on sequences means "proper prefix", so `Lex.Below` spells out Python's order. The sort compares `fecha` this way in Python. The month window is compared by the database; the model uses the same code-point order there (see "## Left out"). Under this order the window is loose: `Ledger.WindowIsLoose` shows that `2024-02-30` and `2024-02-31` fall in February.
- A users column read with `dict.get` can be missing, null or present, and Python treats these differently:
  - a missing `activo` counts as active, but a null `activo` is falsy and the user is rejected as inactive;
  - a missing `full_name` puts `''` into the session, but a null one puts `None`.
  
  `Auth.Field` keeps the three cases apart.
- `update().eq('id', id)` and `delete().eq('id', id)` act on every row with that id, whoever owns it. The model does the same. Lemmas show that, while ids are unique, only the checked row is changed or removed.

## Model

| member | source | states |
|---|---|---|
| `Passwords.IsBcryptHash` | app.py:26-28 | a hash counts as bcrypt iff its first four characters are `$`, `2`, `b`, `$`; the empty hash never does |
| `Passwords.FormatOf` | app.py:26-28 | a hash is routed to bcrypt iff its first four characters are exactly `$`, `2`, `b`, `$` |
| `Passwords.OtherBcryptVariantsGoToWerkzeug` | app.py:26-28 | `$2a$…` and `$2y$…` hashes go to Werkzeug; `$2b$…` goes to bcrypt |
| `Passwords.FailClosed` | app.py:43-54 | a checker call counts as success iff it returned `True`; a raised exception counts as failure |
| `Passwords.VerifyPassword` | app.py:36-54 | an absent or empty hash is rejected; acceptance implies the selected checker returned `True` |
| `Passwords.NoHashConsultsNoChecker` | app.py:38-39 | with no hash the verdict is `false` whatever either checker would do |
| `Passwords.RoutedToOneChecker` | app.py:41-54 | a nonempty hash's verdict is exactly the fail-closed verdict of its own checker; the other checker has no influence |
| `Passwords.RaisingCheckerFailsClosed` | app.py:43-54 | if the selected checker raises, verification is `false` |
| `Auth.IsActive` | app.py:144 | a user is active iff `activo` is missing or `true`; a null or `false` `activo` is inactive |
| `Auth.StoredHash` | app.py:151 | a missing or null `password_hash` reads as `None` |
| `Auth.SessionName` | app.py:158 | `user_name` is `''` when `full_name` is missing, `None` when it is null, the name otherwise |
| `Auth.FirstByEmail` | app.py:138-141 | the user found is in the table with that email and no earlier row has it; nothing is found iff no row has that email |
| `Auth.FirstByEmailAt` | app.py:138-141 | the first row carrying the email is the one found |
| `Auth.LoginDecision` | app.py:131-178 | each outcome exactly when its step is the first to fail: missing credentials iff the email or password is missing or empty; user not found iff no user has the email; inactive iff the first user with it is inactive; no password set iff that user is active with no hash; wrong password iff the hash is given and does not verify; success only for an active user of the table with that email, a nonempty hash and a verified password |
| `Auth.StatusOf` | app.py:131-178 | missing fields give 400, success gives 200, every other rejection gives 401 |
| `Auth.MissingFieldsNeedNoLookup` | app.py:131-135 | a missing or empty email or password gives 400 whatever the users table and the checkers |
| `Auth.InactiveRejectedBeforeHash` | app.py:143-148 | an inactive user is rejected whatever the checkers and whatever that user's stored hash |
| `Auth.MissingActivoIsActive` | app.py:144 | a missing `activo` column counts as active |
| `Auth.AuthenticatedIff` | app.py:124-178 | login succeeds for user `u` iff both fields are given, `u` is the first user with that email, `u` is active, `u` has a nonempty hash, and it verifies |
| `Auth.Session.Login` | app.py:124-178 | the outcome is the decision chain; only success writes `user_id`, `user_email`, `user_name` (and the user is then logged in); otherwise the session is unchanged |
| `Auth.Session.Logout` | app.py:187-190 | the session is emptied and no longer logged in |
| `Ledger.InMonth` | app.py:204 | a date is in the window iff it starts with `{month}-` and the rest lies in `["01", "32")` |
| `Ledger.WindowByPrefix` | app.py:204 | the two comparisons `>= {month}-01` and `< {month}-32` hold together iff the date starts with `{month}-` and its day part lies in `["01", "32")` |
| `Ledger.WindowIsLoose` | app.py:204 | `2024-02-30` and `2024-02-31` are in February 2024; `2024-03-01` and `2024-01-31` are not |
| `Ledger.SelectedMonth` | app.py:197-201 | a missing or empty month argument falls back to the current month |
| `Ledger.MonthRows` | app.py:204-205 | a row is fetched iff it is in the table, belongs to the user and is in the month window |
| `Ledger.MonthRowsCount` | app.py:204-205 | each row of the user in the window is fetched exactly as many times as the table holds it; no other row is fetched |
| `Ledger.IncomeOf` | app.py:208 | a row adds nothing to the income unless it is an `ingreso`, and then its signed amount (no `abs`) |
| `Ledger.TotalIngresos` | app.py:208 | `total_ingresos` is 0 when there is no `ingreso` row, and nonnegative when no amount is negative |
| `Ledger.ExpenseOf` | app.py:209 | a `gasto` row adds exactly the absolute value of its amount (a negative amount counts as its magnitude, not 0); any other row adds nothing |
| `Ledger.TotalGastos` | app.py:209 | `total_gastos` is never negative, and is 0 when there is no `gasto` row |
| `Ledger.CategorySum` | app.py:213-217 | each category total is nonnegative |
| `Ledger.Typed` | app.py:208-209 | keeps exactly the `ingreso` and `gasto` rows |
| `Ledger.UntypedRowsIgnored` | app.py:208-210 | rows that are neither `ingreso` nor `gasto` change neither total |
| `Ledger.SumValuesUpdate` | app.py:217 | setting one dictionary entry changes the sum of the values by the change at that entry |
| `Ledger.PrefixStep` | app.py:214-217 | extending the rows by one changes the expense total, the category totals and the set of categories by that row alone |
| `Ledger.GroupedStep` | app.py:214-217 | one turn of the loop keeps the map's keys, values and sum in step with the rows seen so far |
| `Ledger.GroupExpensesByCategory` | app.py:213-217 | the map's keys are exactly the categories of `gasto` rows; each value is that category's expense total; the values sum to `total_gastos` |
| `Ledger.CategorySumsBounded` | app.py:213-217 | no category total exceeds `total_gastos`; a category without expenses totals 0 |
| `Dashboard.InsertByFecha` | app.py:220 | inserting one row adds exactly that row |
| `Dashboard.SortByFechaDesc` | app.py:220 | the sorted list is a permutation of the input |
| `Dashboard.InsertKeepsSorted` | app.py:220 | insertion keeps dates non-increasing |
| `Dashboard.SortIsSorted` | app.py:220 | the sorted list has non-increasing dates |
| `Dashboard.InsertWithFecha` | app.py:220 | an inserted row goes before every row of the same date |
| `Dashboard.SortIsStable` | app.py:220 | for every date, the rows with that date keep their input order (stable reverse sort) |
| `Dashboard.WithFechaOfPrefix` | app.py:220 | filtering a prefix gives a prefix of the filtered list |
| `Dashboard.Recent` | app.py:220 | `ultimas_transacciones` has `min(10, n)` rows |
| `Dashboard.RecentShape` | app.py:220 | `ultimas_transacciones` has `min(10, n)` rows with non-increasing dates, all taken from the input |
| `Dashboard.RecentAreLatest` | app.py:220 | no row left out is later than a row kept |
| `Dashboard.RecentIsStable` | app.py:220 | rows of equal date appear in fetch order, and they are the first rows of that date |
| `Dashboard.SortThreeAscending` | app.py:220 | three rows with strictly increasing dates come out reversed |
| `Dashboard.FebruaryTotals` | app.py:207-217 | one income of 500000 and food expenses of 120000 and 30000 give 500000, 150000, balance 350000, and `food` as the only category, totalling 150000; all three rows are fetched for February 2024 |
| `Dashboard.FebruaryCategories` | app.py:213-217 | in the February example, `food` is the one and only category with an expense |
| `Dashboard.FebruaryInMonth` | app.py:204-205 | all three February example rows are fetched for user `u` and month `2024-02`, in order |
| `Dashboard.DashboardSummary` | app.py:192-229 | the totals, balance, category map and ten latest rows of the user's rows in the selected month, with `total_gastos >= 0` and `balance == total_ingresos - total_gastos` |
| `Ownership.Owns` | app.py:299-302 | the (id, owner) check passes only when the table has a row with that id, so the update's `response.data[0]` exists; an empty table never passes |
| `Ownership.PatchById` | app.py:312 | every row with the id gets the patch; the other rows are unchanged |
| `Ownership.RemoveById` | app.py:335 | a delete never lengthens the table |
| `Ownership.RemoveByIdMembers` | app.py:335 | after a delete, the rows left are exactly the old rows with another id |
| `Ownership.FirstWithId` | app.py:312-317 | the returned row is in the table and has the id; nothing is returned only when no row has it |
| `Ownership.FirstPatched` | app.py:312-317 | after an update that keeps ids, `response.data[0]` is the patch of a row with that id; with unique ids, of the checked row |
| `Ownership.PatchTouchesOneRow` | app.py:312 | with unique ids, an update changes the one row with that id and nothing else |
| `Ownership.PatchKeepsIdsUnique` | app.py:312 | an update that keeps ids keeps them unique |
| `Ownership.RemoveConcat` | app.py:335 | a delete acts on each part of the table separately |
| `Ownership.RemoveOnly` | app.py:335 | deleting an id only one row has removes that row alone |
| `Ownership.RemoveAbsent` | app.py:335 | deleting an id no row has leaves the table unchanged |
| `Ownership.RemoveDropsOneRow` | app.py:335 | with unique ids, a delete removes exactly one row and keeps the rest in order |
| `Ownership.RemoveKeepsIdsUnique` | app.py:335 | a delete keeps ids unique |
| `Ownership.ForeignRowFailsCheck` | app.py:299-302 | with unique ids, a row owned by someone else never passes the ownership lookup |
| `Ownership.ApplyTransactionPatch` | app.py:304-310 | an update keeps a transaction's id, owner and creation time |
| `Ownership.TransactionTable.Update` | app.py:291-321 | without an owned row: 404, no data, table unchanged; otherwise 200, every row with the id patched, and the returned row is a patched row with that id (owned by the user while ids are unique); the unique-id invariant is preserved |
| `Ownership.TransactionTable.Delete` | app.py:323-343 | without an owned row: 404 and table unchanged; otherwise 200 and the rows with that id removed (exactly one while ids are unique); the invariant is preserved |
| `Ownership.ApplyFixedExpensePatch` | app.py:423-429 | an update keeps a fixed expense's id, phone and type |
| `Ownership.PhoneOf` | app.py:411-415 | the phone is found iff a user has that id, and it is that user's phone |
| `Ownership.MayTouch` | app.py:411-421 | the check fails when no user has the session id; when it passes, some user with that id and some row with the expense id share a phone |
| `Ownership.FixedExpenseTable.Update` | app.py:403-440 | unknown user or no row with that id and the user's phone: 404 and table unchanged; otherwise 200 and every row with the id patched |
| `Ownership.FixedExpenseTable.Delete` | app.py:442-469 | unknown user or no owned row: 404 and table unchanged; otherwise 200 and the rows with that id removed (exactly one while ids are unique) |
| `Lex.Below` | app.py:220 | a string is never below itself, and nothing is below the empty string |
| `Lex.BelowTotal` | app.py:220 | any two distinct strings are ordered one way or the other |
| `Lex.AtMostTransitive` | app.py:220 | "not later than" is transitive |
| `Lex.BelowCommonPrefix` | app.py:204 | a common prefix does not change a string comparison |
| `Lex.BelowOffPrefix` | app.py:204 | a string without prefix `p` compares the same way with every string that has it |
| `TextHelpers.Capitalize` | static/js/app.js:371-373 | `capitalize("")` is `""`; otherwise the same length, the first character upper-cased, the rest lower-cased |
| `TextHelpers.CapitalizeFixedPoints` | static/js/app.js:371-373 | on the ASCII case mapping: the result is capitalized, and `capitalize(t) == t` iff `t` is already capitalized |
| `TextHelpers.CapitalizeIdempotent` | static/js/app.js:371-373 | on the ASCII case mapping: `capitalize(capitalize(t)) == capitalize(t)` |
| `TextHelpers.SliceEnd` | static/js/app.js:380 | `slice(0, end)` stops at `end` when it is within the string, at the length when it is beyond, and counts from the back when it is negative |
| `TextHelpers.TruncateText` | static/js/app.js:376-381 | a text within the limit is returned unchanged; a longer one ends in `...` after a prefix of the text |
| `TextHelpers.TruncateTextSpec` | static/js/app.js:376-381 | a text that fits is unchanged; with `maxLength >= 3`, a longer one becomes its first `maxLength - 3` characters plus `...`, exactly `maxLength` long and shorter than the text |
| `TextHelpers.TruncateTextIdempotent` | static/js/app.js:376-381 | with `maxLength >= 3` the result fits the limit, and truncating twice changes nothing |
| `TextHelpers.TruncateTextSmallLimit` | static/js/app.js:380 | with `maxLength < 3` a longer text still ends in `...` and the result is longer than the limit |
| `TextHelpers.TruncateTextSmallLimitExample` | static/js/app.js:380 | `truncateText("abcdef", 2)` is `"abcde..."` |

## Left out

- The Flask plumbing: routing, the page routes that render templates, `manifest`, CORS, the `login_required` redirect and JSON serialisation. The model keeps `Session.LoggedIn` as the condition `login_required` tests.
- The hosted database client. Tables are in-memory sequences in table order; the order the service really returns rows in is not modelled. `fecha` is compared as a string, as the queries send it. The `.gte`/`.lt` window is evaluated by the database with the column's own type and collation; the model takes that server-side comparison to be code-point order (`Lex.Below`), and a date-typed column or another collation is not modelled.
- The remote-service faults and the generic 500 answers of every route, including a request body that is not JSON.
- The internals of bcrypt and Werkzeug (`gensalt`, `hashpw`, `checkpw`, `check_password_hash`). They are opaque parameters.
- `hash_password` and the routes that call it, `update_password` and `create_user_password`. Hash creation is an opaque library call, so the only thing to state about it ("produces a `$2b$` string") would be an assumption.
- The profile routes `get_profile` and `update_profile`. They read and write user columns through the database client, with no logic beyond it.
- `get_transactions`, `add_transaction`, `get_fixed_expenses` and `add_fixed_expense`. These depend on ordering done by the service, on `uuid4` ids, on `created_at` timestamps, and on parsing with `int(float(...))`. Amounts in the model are already integers.
- `datetime.now()` is the `currentMonth` parameter.
- Request fields that are JSON but not strings (numbers, lists) are not modelled: email, password and hashes are strings or missing.
- A null `telefono` on a user is not modelled: the phone is a string.
- The rest of static/js/app.js (DOM, toasts, timers, `Intl` formatting, `localStorage`, `debounce`, `fetch`), and static/js/sw.js (service-worker caching). These are browser I/O.
- The scripts `create_icons.py`, `create_password.py` and `check_deployment.py`. They do file, image and interactive database work.
- `TextHelpers.Capitalize`: case mapping covers ASCII letters only. JavaScript's full Unicode case mapping can change a string's length (`ß` becomes `SS`), and JavaScript strings are UTF-16 code units rather than code points.
- `TextHelpers.TruncateText`, `TextHelpers.TruncateTextSpec`, `TextHelpers.TruncateTextIdempotent`: lengths and slices count code points, while JavaScript's `length` and `slice` count UTF-16 code units. The two agree on text inside the Basic Multilingual Plane; for text with characters outside it (emoji) the model's lengths are shorter than JavaScript's, so the model may leave unchanged a text that JavaScript truncates, and "exactly `maxLength` long" is in code points.
- The `print` diagnostics in `verify_password` and `api_login` (app.py:46, 53, 181). They write to the server log and do not affect any answer.
- Concurrency: a row deleted between the ownership check and the update would make `response.data[0]` fail. The model is sequential.
