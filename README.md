# Waste blend optimiser and user manager — a Dafny model

RecycleMind keeps a catalogue of scrap-aluminium lots. Each lot is a row of
18 text fields: name, area, fourteen element percentages (Si … Al), the
available weight in kg and the unit price. Product standards give a
`[min, max]` percentage window per element.

`WasteManager.optimize_mix` (waste.py) does the following:

- It filters the catalogue by area, where "全部区域" means every area.
- It turns the element columns into fractions. A field that does not convert
  becomes 0.
- It states a cost-minimising blend problem:
  - two denominator-free inequalities per constrained element;
  - a cap per lot at its available weight;
  - the bounds x ≥ 0;
  - a start at 10% of every lot.
- It hands that problem to a numeric solver.
- It reports the total weight, the cost, the average price, the blend
  (lots drawn above 0.001 kg) and a per-element analysis with in-range flags.

`calculate_optimization` picks the standard by name and calls it.
`update_area_combo` lists the areas for the filter.

Two user managers guard the application:

- `user_management.py`:
  - a fixed role table (`ROLES`);
  - login against the users table;
  - permission checks through the table;
  - an operation log that does nothing without a logged-in user.
- `user_management_fixed.py`:
  - a hard-coded role ladder (admin ⊇ operator ⊇ viewer);
  - a login query that admits only accounts flagged active.

## How things are modelled

- **The numeric solver** (scipy `minimize`, SLSQP) is a parameter
  `solve: Problem -> SolverOutcome`. The model states exactly which problem
  the solver receives (`Optimizer.Problem`) and proves what the report says
  about any vector the solver returns.
- **Python's `float()`** is a parameter `parse: string -> Option<real>`.
  Floating point is modelled as exact `real` arithmetic.
- **The `result.fun` value** is the objective evaluated at the returned
  vector, Σ xᵢ·priceᵢ.
- **Division by a zero total weight** yields NaN or ±inf in numpy. It is
  modelled as `Analysis.Content.NonFinite`, whose in-range flag is false.
- **Any exception** inside optimize_mix (an IndexError on a short row, or a
  `float()` failure on a weight or a price) is
  `Optimizer.Failure.ComputeError`. A solver vector of the wrong length is
  treated the same way.
- **The users table** is a value `Accounts.Database`:
  - `Unreachable` stands for any exception while connecting or querying;
  - `Reachable(rows)` holds the table.

  `fetchone` returns the first row, in table order, that the WHERE clause
  admits.
- **Classes.** Each `UserManager` is a class whose `currentUser` field is
  updated in place by `AuthenticateUser`.

## Model

| member | source | states |
|---|---|---|
| Layout.ColumnLayout | waste.py:12-17 | the 18 catalogue columns are name, area, the 14 element columns in ELEMENT_FIELDS order, weight and price |
| Layout.ElementFieldsDistinct | waste.py:17 | the 14 element symbols are pairwise distinct, so each names one column |
| Areas.Matching | waste.py:568 | the row list comprehension keeps exactly the rows whose area field equals the chosen area and nothing else |
| Areas.MatchingConcat | waste.py:568 | the comprehension keeps the catalogue order: filtering a concatenation concatenates the filtered parts |
| Areas.MatchingKeepsAll | waste.py:568 | a catalogue all of whose rows lie in the chosen area is returned unchanged |
| Areas.FilterByArea | waste.py:566-568 | "全部区域" returns the whole catalogue; any other area fails exactly when some row has no area field (IndexError) and otherwise holds exactly that area's rows |
| Areas.AreaOptions | waste.py:388-400 | the combo list is the sentinel "全部区域" followed by the distinct areas of rows having an area field, strictly ascending, each area listed once |
| Areas.ListedAreaSelectsLots | waste.py:395-400 | when every row has an area column, choosing any listed area selects at least one lot; a row without one makes the filter at waste.py:568 raise IndexError |
| StringOrder.SortSet | waste.py:399 | `sorted` on a set of strings yields its members once each in strictly ascending code-point order |
| StringOrder.LessTotal | waste.py:399 | code-point order compares any two distinct strings |
| StringOrder.LessTransitive | waste.py:399 | code-point order is transitive |
| StringOrder.LessIrreflexive | waste.py:399 | no string precedes itself |
| Composition.Fraction | waste.py:586-590 | the element fraction is the parsed percentage divided by 100, and 0 when the field is missing or does not convert |
| Composition.ParseColumn | waste.py:579-580 | converting the weight or price column fails exactly when some row is too short or its field does not convert; otherwise it holds one converted value per row |
| Composition.FractionMatrix | waste.py:583-593 | the matrix has one row of 14 fractions per lot |
| Composition.BuildElementMatrix | waste.py:583-593 | the nested loop fills entry (i, k) with the fraction of lot i's k-th element column |
| Formulation.ConstrainedColumnsExact | waste.py:606-607 | the constrained elements are exactly those of the 14 that the standard names, in ELEMENT_FIELDS order, each once |
| Formulation.BuildConstraints | waste.py:603-630 | the list holds 2 per constrained element plus one cap per lot, and each constraint refers to an existing lot or element column |
| Formulation.ElementWindows | waste.py:606-623 | the loop appends a lower and an upper inequality for each constrained element in order |
| Formulation.CapacityConstraints | waste.py:626-630 | one cap constraint per lot |
| Formulation.PairIff | waste.py:612-623 | a vector meets an element's two inequalities iff Σxᵢfᵢ lies between min/100·Σx and max/100·Σx |
| Formulation.CapacityPartIff | waste.py:626-630 | a vector meets the cap constraints iff no lot is drawn beyond its available weight |
| Formulation.SatisfiedIff | waste.py:603-630 | a vector meets the whole list iff every constrained element's window holds and no cap is exceeded |
| Formulation.Linearisation | waste.py:608-623 | for positive total weight the cleared inequalities hold iff min ≤ achieved percentage ≤ max |
| Formulation.WindowIffInWindow | waste.py:612-623 | one element's two inequalities hold iff its blended percentage is in its window, for positive total weight |
| Formulation.FeasibleIffInWindows | waste.py:603-630 | for positive total weight a vector meets the list iff every constrained element's percentage is inside its window and no cap is exceeded |
| Formulation.ZeroSums | waste.py:599-600 | the empty blend weighs nothing, costs nothing and contains nothing |
| Formulation.CostNonNegative | waste.py:599-600 | with non-negative prices, no vector with x ≥ 0 has negative cost |
| Formulation.EmptyBlendIsOptimal | waste.py:599-633 | with non-negative caps the empty blend meets every constraint at cost 0, and with non-negative prices no admissible vector is cheaper |
| Analysis.AveragePrice | waste.py:652 | average price times total weight is the total cost when the weight is positive, and the price is 0 otherwise |
| Analysis.ReportOf | waste.py:658-668 | an entry carries the content and the target window, and in_range holds iff the content is a number within the window |
| Analysis.AnalyzeElements | waste.py:655-668 | the loop builds the element_analysis dictionary over the constrained elements |
| Analysis.AnalysisKeys | waste.py:656-657 | element_analysis has a key for exactly the elements of ELEMENT_FIELDS that the standard names |
| Analysis.AnalysisEntry | waste.py:658-668 | each element's entry reports Σxᵢfᵢ/Σx·100 against that element's own window |
| Analysis.InRangeIffSatisfied | waste.py:612-661 | for positive total weight, every analysed element is in range and no cap is exceeded iff the vector meets the constraint list |
| Analysis.AllInRangeIffInWindows | waste.py:656-661 | for positive total weight, all in_range flags are true iff every constrained element's percentage is in its window |
| Analysis.ZeroTotalNothingInRange | waste.py:658-661 | with zero total weight the content is not a number and no element is in range |
| Analysis.BuildMix | waste.py:671-677 | the loop builds the waste_mix dictionary over all lots |
| Analysis.MixKeys | waste.py:672-677 | a name is in waste_mix iff some lot of that name was drawn above 0.001 kg |
| Analysis.MixOmits | waste.py:673 | a name all of whose lots are drawn at most 0.001 kg is absent |
| Analysis.MixLastWins | waste.py:672-677 | when two drawn lots share a name, the entry holds the weight and area of the last one |
| Analysis.MixWithDistinctNames | waste.py:672-677 | with distinct names, each lot drawn above 0.001 kg has an entry with its own weight and area, and the others none |
| Optimizer.Prepare | waste.py:566-636 | the stated problem has a non-empty lot list, one price and one cap per lot, and every lot row holds all 18 fields |
| Optimizer.OptimizeMix | waste.py:562-697 | the method computes the optimiser's result for the given catalogue, standard, area, converter and solver |
| Optimizer.EmptyAreaReported | waste.py:570-574 | "no lots in this area" is reported iff the filtered list is empty, and then regardless of the solver |
| Optimizer.BadNumberIsComputeError | waste.py:579-580 | a missing or unconvertible weight or price in a selected lot ends in the computation-error result |
| Optimizer.ProblemShape | waste.py:577-645 | the solver receives the lots' prices, 2·(constrained elements)+n constraints, zero lower bounds, a 10% start and an iteration cap of 1000 |
| Optimizer.FeasibleReport | waste.py:647-652 | a feasible report carries the solver's successful vector's total weight and cost, and the average price guarded against a zero total |
| Optimizer.FeasibleAnalysisKeys | waste.py:655-668 | a feasible report analyses exactly the elements of ELEMENT_FIELDS that the standard names |
| Optimizer.FeasibleMix | waste.py:671-677 | a feasible report's waste_mix names exactly the lots the solver drew above 0.001 kg |
| Optimizer.FeasibleMixEntry | waste.py:671-677 | a lot drawn above 0.001 kg, with no later lot of the same name drawn above it, has a waste_mix entry holding its own weight and area |
| Optimizer.InRangeIffSolverVectorSatisfies | waste.py:603-668 | when the solver succeeds with positive total weight, every reported element is in range and no cap is exceeded iff its vector meets the constraint list |
| Optimizer.ZeroWeightReport | waste.py:652-661 | a feasible report of zero total weight has average price 0 and every element out of range |
| Optimizer.EmptyBlendAdmissible | waste.py:599-645 | the stated problem admits the empty blend at cost 0, which is a minimum when prices are non-negative |
| Optimizer.FindStandard | waste.py:541-546 | the search returns the first standard with the chosen name, and nothing iff no standard has it |
| Optimizer.CalculateOptimization | waste.py:531-560 | an empty catalogue and then an empty choice are refused; an unknown name is reported iff no standard has it; when the catalogue is non-empty and some standard has the chosen name, the optimiser runs on the first such standard and its result is shown |
| Accounts.FirstAdmitted | user_management.py:114-115 | fetchone returns the first row the query admits, and nothing iff no row is admitted |
| UserManagement.RolePermissions | user_management.py:141 | a role missing from the table has no permissions |
| UserManagement.RoleTable | user_management.py:17-30 | the table knows exactly admin, operator and viewer, with their display names |
| UserManagement.AdminPermissions | user_management.py:18-21 | the administrator holds exactly its six permissions |
| UserManagement.OperatorWithinAdmin | user_management.py:18-25 | the operator holds exactly its three permissions, all of them also the administrator's; user management, backup and the log view are the administrator's alone |
| UserManagement.ViewerOnlyViews | user_management.py:20-29 | the viewer holds exactly three `*_view` permissions, none of which the operator or the administrator holds |
| UserManagement.Lookup | user_management.py:107-115 | the login query returns a row of matching name and password whose is_active flag is NULL or true, and nothing iff there is none |
| UserManagement.UserManager.constructor | user_management.py:35-36 | a new manager has nobody logged in |
| UserManagement.UserManager.AuthenticateUser | user_management.py:101-134 | login succeeds iff the database answers with a row; it then records that row's id, username, role and email; failure or a database error leaves the logged-in user unchanged |
| UserManagement.UserManager.HasPermission | user_management.py:136-141 | no permission without a logged-in user; otherwise granted iff the role is in the table and lists the permission |
| UserManagement.UserManager.LogOperation | user_management.py:143-165 | nothing is logged iff nobody is logged in; otherwise a log row with the user's id and name, or the console line when the database fails |
| UserManagement.UnknownRoleHasNothing | user_management.py:140-141 | a logged-in user whose role the table does not know is granted nothing |
| UserManagement.LoginGrantsRolePermissions | user_management.py:118-141 | after a successful login the permissions are those of the matched row's role |
| UserManagementFixed.Lookup | user_management_fixed.py:83-88 | the revised query returns a matching row whose is_active is true, and nothing iff there is none |
| UserManagementFixed.UserManager.constructor | user_management_fixed.py:18-19 | a new manager has nobody logged in |
| UserManagementFixed.UserManager.AuthenticateUser | user_management_fixed.py:78-102 | login succeeds iff the database answers with an active row; it then records that row; otherwise the logged-in user is unchanged |
| UserManagementFixed.UserManager.HasPermission | user_management_fixed.py:104-116 | no permission without a logged-in user; the administrator has every permission; an operator exactly view, edit, add and delete; a viewer exactly view; no other role anything |
| UserManagementFixed.OperatorExactly | user_management_fixed.py:112-113 | the operator is granted exactly view, edit, add and delete |
| UserManagementFixed.ViewerExactly | user_management_fixed.py:114-115 | the viewer is granted exactly view |
| UserManagementFixed.OtherRolesNothing | user_management_fixed.py:116 | any other role is granted nothing |
| UserManagementFixed.LadderMonotone | user_management_fixed.py:110-116 | viewer ⊆ operator ⊆ admin, each step strictly larger |
| UserManagementFixed.StricterThanOriginal | user_management_fixed.py:86 | the revised WHERE clause admits a subset of the original's rows; an account with a NULL is_active flag is admitted only by the original |
| UserManagementFixed.AcceptedByOriginal | user_management_fixed.py:83-88 | any login the revised query accepts, the original query accepts on the same table |

## Left out

- The numeric solver itself (scipy SLSQP, its tolerances and its convergence) is a parameter. Nothing is assumed about which vector it returns, only about how that vector is reported.
- Floating point: weights, prices and percentages are exact reals. Rounding in the solver, and in `np.sum`, is not modelled.
- `float()` is a parameter. Its exact grammar (whitespace, "nan", "inf", underscores) is not modelled.
- Optimizer.Blend: a standard's window taken from JSON as Infinity or NaN, and a window missing 'min' or 'max' (a KeyError), are not modelled. Windows are pairs of reals.
- Optimizer.Blend: the text of the error messages, including the exception text in "计算错误: …", is not modelled. Only which failure occurs is modelled.
- Optimizer.Blend: a solver vector whose length differs from the number of lots is reported as a computation error. scipy does not return one.
- The code has no separate did-not-converge or zero-weight outcome. A solver failure of any kind is reported as "无法找到可行解". A zero-weight solution is reported as feasible, with average price 0. Optimizer.EmptyBlendAdmissible shows that the stated problem admits the empty blend.
- Optimizer.Blend: `waste_mix` and `element_analysis` are modelled as maps, which drop the insertion order of the Python dicts. In `element_analysis` that order is the ELEMENT_FIELDS order. In `waste_mix` each name keeps the position where it was first inserted, even when a later lot of that name overwrites the entry. This order fixes the row order of the result tables (waste.py:172, 193), and the model does not capture it.
- The result dialog (`OptimizationResultDialog`), the Qt widgets, the catalogue and standard editors, Excel import/export and JSON persistence are UI and I/O.
- UserManagement.UserManager.AuthenticateUser: an exception raised after the user has been recorded (the debug print or `conn.close()` on the success path) would return False with the user already set. This is not modelled.
- The SQL engine is not modelled:
  - string comparison by collation (MySQL may compare case-insensitively);
  - row order without ORDER BY;
  - password hashing, which the code does not do.

  Login compares exact strings and takes rows in table order.
- `init_database`, the default administrator account, the backup, restore and user-editing dialogs, and `log_operation` of the revised manager are database and UI code outside this model.
- The debug prints in `authenticate_user` are console output with no effect on state.
