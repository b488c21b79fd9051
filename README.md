# Commission rule validation, modelled in Dafny

This project models the business-rule core of a small commission-validation tool. It has three parts:

- **The rule table** (`managers.dfy`, module `Rules`). `RulesManager` keeps a dictionary from
  tier name to `{rate, threshold}` in the user's session. A new session is seeded with three
  tiers: standard 0.05/0, premium 0.07/100000 and enterprise 0.10/500000. Tiers can be added
  and removed. A blank or duplicate name is refused, and so is removing the last tier or an
  unknown one. A refused request returns `(False, message)` and changes nothing.
- **The validator** (`validators.dfy`, module `Validators`). `CommissionValidator.validate`
  turns one deal record into an ordered list of issues:
  - an unknown tier gives that single issue and nothing else is checked;
  - otherwise it checks the rate against the expected rate, with a 0.001 tolerance;
  - then the 15% commission cap;
  - then a negative deal size.

  The expected rate is the tier's base rate. It is multiplied by 1.1 once the deal size is
  strictly above 1.2 times the tier's threshold.
- **Batch metrics** (`analyzers.dfy`, module `Analyzers`). `calculate_metrics` returns:
  - the sum of commission amounts;
  - the mean commission rate;
  - the number of deals;
  - `flagged_count`, which is the total number of issues over the batch, not the number of failing deals.

The rule table is an object whose fields the source changes in place. It is modelled as the
class `Rules.RulesManager`, with these fields:

- `initialized`: whether `commission_rules` is in the session state;
- `rules`: that dictionary;
- `names`: its key order, which a Python dict keeps and `get_rules_list` exposes.

Each method is tied to a pure function of the old table: `AddResult`, `RemoveResult`. The
invariant that `remove_rule`'s refusal at src/managers.py:45-46 keeps is `WellFormed`: the
table is not empty, and the key order lists each key exactly once. It is proved for every single request and for every run of
requests (`ExecuteAll`).

The validator is a class that holds the manager and reads its rules live. Its `Validate`
method builds the list with successive appends and an early return, as the source does. It is
proved equal to the pure function `Issues`, which states each check's exact condition and the
order of the issues. `Validate` and `GetExpectedRate` have no `modifies` clause, so Dafny
guarantees that validation changes neither the rule set nor anything else. Metrics are pure
recursive functions over a sequence of records. The `validator` argument of `calculate_metrics`
is represented by the rule map that the validator reads. `Validate` returns `Issues` of those
rules, so the two agree.

Numbers are Dafny `real`s, and thresholds are `int`s. Issues and replies are datatypes, not
formatted strings.

Two consequences of the default tiers:

- The default `standard` tier has threshold 0 (src/managers.py:14). So at src/validators.py:48
  every standard deal of positive size expects the accelerated rate 0.055. A standard deal of
  50000 at rate 0.05 therefore gets a rate mismatch (`Validators.StandardDealIsAccelerated`).
- A standard deal of 10000 with commission 2000 gets a rate mismatch and then the cap issue
  (`Validators.CapScenario`).

## Model

| member | source | states |
|---|---|---|
| `Rules.StripLeft` | src/managers.py:25 | the leading-whitespace part of `strip()`: the result is a suffix of the input, everything cut off is whitespace, and it does not start with whitespace |
| `Rules.StripRight` | src/managers.py:25 | the trailing-whitespace part of `strip()`: the result is a prefix of the input, everything cut off is whitespace, and it does not end with whitespace |
| `Rules.Strip` | src/managers.py:25-32 | `tier_name.strip()`: no longer than the input, and neither starting nor ending with whitespace |
| `Rules.StripIsTrimmedSlice` | src/managers.py:25-32 | what `strip()` keeps is a contiguous slice of the name, with only whitespace removed at either end |
| `Rules.StripEmptyIffBlank` | src/managers.py:25-32 | `name.strip()` is empty exactly when the name is empty or consists only of Python whitespace |
| `Rules.DefaultTable` | src/managers.py:13-17 | the seeded table has exactly the three default tiers, in order, and satisfies the invariant |
| `Rules.Without` | src/managers.py:41 | deleting a key from the key order removes exactly that key, keeps the rest distinct, and makes the order one shorter |
| `Rules.WithoutAt` | src/managers.py:41 | deleting the key at position i of a distinct key order leaves the keys before and after it in their relative order, as `del` on a dict does |
| `Rules.NamesCoverRules` | src/managers.py:48-50 | for a well-formed table the key list is exactly as long as the dictionary |
| `Rules.AddResult` | src/managers.py:23-34 | success iff the name is non-blank and new; a blank name gives MissingName, a duplicate gives AlreadyExists, and both leave the table unchanged; on success, exactly `name -> {rate, threshold}` is added, the size grows by one, the other entries are unchanged, the name is appended to the key order, and the invariant is kept |
| `Rules.RemoveResult` | src/managers.py:36-46 | success iff there is more than one tier and the name is present; a table of at most one tier gives LastRule for any name; an absent name gives NotFound; failures change nothing; on success, exactly that key goes, the size drops by one, the others are unchanged, and the invariant is kept |
| `Rules.AddKeepsNameUnstripped` | src/managers.py:25-29 | the key is stored as typed, not as its stripped form |
| `Rules.ExecuteAllKeepsWellFormed` | src/managers.py:23-46 | any sequence of add/remove requests from a well-formed table leaves a well-formed, non-empty table |
| `Rules.FromDefaultsNeverEmpty` | src/managers.py:10-50 | starting from the defaults, any sequence of requests leaves at least one tier, and the key list holds exactly the keys, each once |
| `Rules.RulesManager.constructor` | src/managers.py:7-8 | a manager in a fresh session holds the defaults and satisfies the invariant |
| `Rules.RulesManager.InitializeRules` | src/managers.py:10-17 | seeds the defaults only when the session has no rules; otherwise the table is untouched, so a second call changes nothing |
| `Rules.RulesManager.GetRules` | src/managers.py:19-21 | returns the current dictionary |
| `Rules.RulesManager.GetRulesList` | src/managers.py:48-50 | returns the key order: distinct, as long as the dictionary, and exactly its keys |
| `Rules.RulesManager.AddRule` | src/managers.py:23-34 | reply and new table are those of `AddResult` on the old table; the invariant is kept |
| `Rules.RulesManager.RemoveRule` | src/managers.py:36-46 | reply and new table are those of `RemoveResult` on the old table; the invariant is kept |
| `Validators.ExpectedRate` | src/validators.py:42-51 | the result is the base rate or the base rate times 1.1; it is the base rate whenever the deal size is at most threshold times 1.2 (the boundary included); for a non-zero base rate it is accelerated iff the deal size is strictly above that |
| `Validators.ExpectedRateMonotone` | src/validators.py:47-51 | for a non-negative base rate, the expected rate never decreases with deal size and lies between the base rate and 1.1 times it |
| `Validators.AcceleratorBoundary` | src/validators.py:48-51 | with rate 0.05 and threshold 100000, a deal of 120000 expects 0.05 and a deal of 120001 expects 0.055 |
| `Validators.Issues` | src/validators.py:18-40 | an unknown tier gives exactly `[UnknownTier(tier)]`; for a known tier there are at most three issues, in check order, none UnknownTier; RateMismatch(expected, got) appears iff the rates differ by more than 0.001; CapExceeded appears iff the amount is above 15% of the deal size; NegativeDealSize appears iff the deal size is negative |
| `Validators.Passes` | src/app.py:121 | the PASS status: a record with an unknown tier never passes, and a passing record has a non-negative deal size and a commission within the cap |
| `Validators.UnknownTierShortCircuits` | src/validators.py:23-25 | with an unknown tier, the result is the single issue whatever the record's other fields hold |
| `Validators.PassesIff` | src/validators.py:20-40 | a record with a known tier has no issue iff the rate is within tolerance, the amount is within the cap and the deal size is non-negative |
| `Validators.StandardDealIsAccelerated` | src/validators.py:28-30 | with the defaults, a standard deal of 50000 at 0.05 gives exactly one issue, RateMismatch(0.055, 0.05) |
| `Validators.CapScenario` | src/validators.py:33-34 | with the defaults, a standard deal of 10000 with commission 2000 gives RateMismatch then CapExceeded |
| `Validators.CommissionValidator.constructor` | src/validators.py:15-16 | the validator holds the given manager |
| `Validators.CommissionValidator.Validate` | src/validators.py:18-40 | the appended list equals `Issues` of the manager's current rules; no modifies clause, so the rules are left unchanged |
| `Validators.CommissionValidator.GetExpectedRate` | src/validators.py:42-51 | returns `ExpectedRate` of the manager's current rules |
| `Analyzers.TotalCommissions` | src/analyzers.py:24 | the sum of `commission_amount`; it is non-negative when every amount is |
| `Analyzers.TotalRates` | src/analyzers.py:25 | the sum of `commission_rate` inside the mean; it is non-negative when every rate is |
| `Analyzers.AllIssues` | src/analyzers.py:29 | the flattened comprehension of every row's issues; it holds at most three issues per row |
| `Analyzers.FlaggedIsIssueSum` | src/analyzers.py:29 | the length of the flattened issue comprehension is the sum over rows of each row's issue count |
| `Analyzers.FlaggedBounds` | src/analyzers.py:29 | the flagged count is at least the number of failing rows and at most three times the number of rows |
| `Analyzers.TotalsOfConcat` | src/analyzers.py:24-25 | the commission sum and the rate sum of a concatenated batch are the sums of those of its parts |
| `Analyzers.IssuesOfConcat` | src/analyzers.py:29 | the issue list of a concatenated batch is the first part's issues followed by the second part's |
| `Analyzers.RateSumBounds` | src/analyzers.py:25 | when every rate lies in [lo, hi], the rate sum lies between n times lo and n times hi |
| `Analyzers.AverageWithinBounds` | src/analyzers.py:25 | when every rate of a non-empty batch lies in [lo, hi], the average rate exists and lies in [lo, hi] |
| `Analyzers.CalculateMetrics` | src/analyzers.py:22-36 | `total_deals` is the row count; `total_commissions` is the sum of amounts; `flagged_count` is the sum of per-row issue counts and lies between the failing-row count and three times the row count; the average is the rate sum over the count; an empty batch gives 0, no average, 0, 0 |
| `Analyzers.FlaggedCountsIssues` | src/analyzers.py:29 | one deal with two issues gives `flagged_count` 2 while only one row fails |

## Left out

- Streamlit page setup, tabs, widgets, `st.rerun`, CSV upload and download, and charts (src/app.py, main.py). These are UI and I/O.
- The session-state holder is the manager's own fields. Reruns that build a new manager over the same session are represented by calling `InitializeRules` again on the same object.
- Sample-data generation (src/generators.py). This is random sampling, with nothing to prove.
- `DataAnalyzer.detect_anomalies` (src/analyzers.py:11-20). It is a call into scikit-learn's IsolationForest.
- `Analyzers.CalculateMetrics`: does not model IEEE-754 rounding of the float sums, or the NaN that pandas gives as the mean of an empty batch. Sums are exact reals, and the empty-batch average is `None`.
- `Validators.Issues`, `Analyzers.CalculateMetrics`: do not model missing values. An uploaded CSV (src/app.py:61-64) can have empty cells, which pandas reads as NaN, and every comparison with NaN is false. So in the source a row with a missing rate or amount gets no rate or cap issue. A row with a missing deal size is checked against the base rate, so it can still get a rate issue, but it never gets a cap or negative-size issue. `sum()` and `mean()` skip NaN, so the average is over the rows that have a rate. The model's `real` fields always hold a number.
- `Validators.ExpectedRate`: `* 1.1`, `* 1.2`, `* 0.15` and the 0.001 tolerance are exact real arithmetic. Float rounding at these boundaries is not captured.
- Message text: emoji strings and the `:.3f` formatting of rates. Messages and issues are constructors that carry the same data.
- `float(rate)` / `int(threshold)` coercion of arbitrary inputs. Rates arrive as reals and thresholds as integers.
- `Rules.RulesManager.GetRules`: returns the dictionary as a value. The source returns the live dict, and a caller could mutate it past the manager's checks. That aliasing is not modelled.
- The PASS/FAIL column of the validation tab is `Validators.Passes`, the empty issue list. The table rendering itself is not modelled.
