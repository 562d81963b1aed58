# Payroll, leave and reporting: a verified model

A Dafny model of the parts of an HR and payroll service whose promises run over every input or every
sequence of operations. `dafny verify dfyconfig.toml` checks it.

| area | files |
|---|---|
| Salary formulas and component resolution | `FormulaLexer`, `FormulaParser`, `FormulaGrammar`, `FormulaEvaluator`, `SalaryComponents`, `FormulaLaws` |
| Leave entitlement, ledger, requests and recalculation | `LeaveEntitlement`, `LeaveShares`, `LeaveAccount`, `LeaveRecalculation`, `LeaveFrequencyChange`, `LeavePosting`, `LeaveBooks`, `LeaveEngine`, `LeaveYearEnd`, `LeaveServing`, `LeavePolicyRecalc`, `LeaveRequests`, `LeaveUse` |
| Income tax and tax deducted at source | `IncomeTax`, `FinancialYear`, `Tds`, `TaxRegimes`, `TaxYear`, `TaxedRuns` |
| Pay of a period, payroll runs, arrears | `WorkingDays`, `LossOfPay`, `PayrollCalculator`, `LineItems`, `StatutoryPay`, `PayrollRuns`, `PayrollOffice`, `SalaryRevisions`, `ArrearsPay`, `Approvals`, `FoldedArrears`, `PayrollExample` |
| Reporting lines, org chart, employee import | `ManagerChains`, `Reporting`, `OrgChart`, `EmployeeImport`, `ImportOrder` |
| CSV, worker pool, rate limiter | `Csv`, `CsvLineEnds`, `WorkerPool`, `WindowLimiter` |

Code that updates state is modelled by classes and methods with loops, each proved equal to a function of its
inputs or of the state before it; the promises are then proved of those functions, as lemmas over all inputs or
over all sequences of events.

Leave days are integers in hundredths of a day; tax and pay are exact rationals, rounded where the code rounds.
Dates are day numbers, and a leave year is its thirteen month boundaries. A database table is a map or a sequence,
and a transaction is one step.

## Where a promise does not hold

The code was kept as it is. Each line names an input for which the promise fails, and the exact condition for it to
hold.

- A negative manual adjustment of a balance that has no row yet is clamped in the row but not in the ledger
  (`LeaveBooks.Books.AdjustBalanceManual`, an if and only if).
- Recalculating does not always forget history: an account whose type was made annual while switched off, and later
  monthly again, is left with one day instead of two (`LeaveFrequencyChange.FrequencyChangeLosesDays`). It does
  exactly when no period had been reversed in excess, or what was earned fills the quota even so
  (`LeaveRecalculation.RecalculationForgetsExactly`).
- An import accepted row by row can leave a reporting cycle in the database, because a failing row keeps its
  stored manager while the check no longer sees it (`EmployeeImport.ImportCanStoreCycle`). With loops tied as in the
  next line, or none, `ImportOrder.TiedCommitStaysAcyclic` gives the exact condition on the sheet and the database;
  otherwise `EmployeeImport.CommitStaysAcyclic` gives it on the rows that the passes leave, and a rank falling along
  all links, or no new manager for anybody who has one, suffices (`ImportOrder.RankedImportStaysAcyclic`,
  `ImportOrder.NewLinksStayAcyclic`).
- Which of two clashing import rows fails can depend on their order (`EmployeeImport.OrderDecides`). It never does
  exactly when every loop lies within the rows that run into it, or those fail anyway (`ImportOrder.OrderIsNoMatter`).
- A run can be approved on figures its first approver never saw, since recalculating and adjusting under review keep
  the approval (`PayrollExample.FirstApprovalMayPredateFigures`). The figures stand exactly when each such event is
  refused or comes to the same (`Approvals.FiguresStandExactly`), as one from unchanged facts, settings and structures
  does (`Approvals.SameInputsAreHarmless`).
- Arrears folded into a run can be in nobody's pay (`PayrollExample.ArrearsCanBeDropped`). They stand exactly when
  the last setting of that line item's adjustments, if any, listed them (`FoldedArrears.FoldedArrearsStandExactly`).
- A revision reaching back past a later-effective one is settled against a structure the period was never paid
  under (`SalaryRevisions.LaterThenEarlier`, with its exact condition).
- A day can be taken off twice: one recorded absent before its unpaid leave was approved
  (`LossOfPay.AbsentMondayIsLostTwice`), or covered by two approved requests (`LossOfPay.MondayIsLostTwice`). Pay is
  for the employed working days without absence and unpaid leave exactly when nothing is left of them, or no two
  requests share a working day, no absence is on a leave day, and all of these are employed working days
  (`LossOfPay.PaidForDaysNotLost`).
- Unpaid leave is counted with the company's weekly offs even for employees with their own, so that it can leave a
  day payable (`LossOfPay.SaturdayIsPaid`). Leave all period leaves none exactly when the employee works no more days
  than the company does and absences add (`LossOfPay.WholePeriodUnpaid`).
- An account's used days are not always those of its approved requests (`LeaveUse.RejectedDaysStayUsed`). They stay
  so exactly when no event rejects a request already approved for days off the balance
  (`LeaveUse.UsedDaysAreApproved`).
- The default old tax regime has a cliff (`IncomeTax.OldRegimeHasCliff`). There is none exactly when marginal relief
  applies and the rebate covers the tax at the threshold, or the rebate takes nothing off there
  (`IncomeTax.NoTaxCliff`).
- A field with a carriage return written without quotes does not read back (`Csv.WriteThenRead`, an if and only if).

## Model

| member | source | states |
|---|---|---|
| FormulaLexer.Tokenize | apps/api/src/payroll/formula.evaluator.ts:21-45 | The index-driven scan computes exactly the tokens, or the error, of the recursive reading `Lex`. |
| FormulaLexer.LexExactlyLayouts | apps/api/src/payroll/formula.evaluator.ts:21-45 | A text is read as a list of tokens if and only if it is those tokens written out with white space between them, where two tokens that would run together need some. |
| FormulaParser.ParseFormula | apps/api/src/payroll/formula.evaluator.ts:52-113 | The tokenizer and the position-advancing parser together compute `Parse`, errors included; they end on every text. |
| FormulaParser.Parser.ParseExpr | apps/api/src/payroll/formula.evaluator.ts:52-113 | One recursive-descent call returns the tree, or error, and the position of its specification, and always moves forward on success. |
| FormulaGrammar.ParseTokensExactlyGrammar | apps/api/src/payroll/formula.evaluator.ts:52-113 | Both directions: the parser accepts exactly the token lists of the layered grammar within its nesting limit, with the tree the grammar gives them. |
| FormulaGrammar.ParseExactlyGrammar | apps/api/src/payroll/formula.evaluator.ts:21-113 | The same from text to tree, with the length limit: accepted if and only if some layout of some sentence. |
| FormulaGrammar.Unambiguous | apps/api/src/payroll/formula.evaluator.ts:52-113 | No token list has two meanings. |
| FormulaGrammar.PrintMeans | apps/api/src/payroll/formula.evaluator.ts:52-113 | Printing with parentheses only where precedence and left association need them keeps the meaning. |
| FormulaGrammar.PrintIsMinimal | apps/api/src/payroll/formula.evaluator.ts:52-113 | No phrase of the same meaning has fewer tokens or shallower parentheses than the printed one. |
| FormulaGrammar.ParseUndoesPrint | apps/api/src/payroll/formula.evaluator.ts:21-113 | Parsing the printed text gives the tree back, within the two limits, however it is spelled and spaced. |
| FormulaGrammar.EveryTreeHasText | apps/api/src/payroll/formula.evaluator.ts:21-113 | Every tree of finite decimals and names has such a text: its printed one, spelled out, if that keeps to the two limits. |
| FormulaGrammar.ParsedTreeIsWritable | apps/api/src/payroll/formula.evaluator.ts:21-113 | And no other tree is ever the outcome of parsing. |
| FormulaGrammar.ReprintIsAccepted | apps/api/src/payroll/formula.evaluator.ts:52-113 | Whatever was accepted is accepted again when reprinted, with the same tree and no more tokens. |
| FormulaGrammar.SpellingIsExact | apps/api/src/payroll/formula.evaluator.ts:21-45 | Every finite decimal has a spelling that the tokenizer takes for one number of exactly that value. |
| FormulaEvaluator.FormulaReferences | apps/api/src/payroll/formula.evaluator.ts:115-127 | Each name the tree refers to, once, and the parser's error if the formula does not parse. |
| FormulaEvaluator.EvaluateReadsOnlyRefs | apps/api/src/payroll/formula.evaluator.ts:115-153 | Variables other than the listed references never influence an evaluation. |
| FormulaEvaluator.EvaluateFailsOnlyOnZero | apps/api/src/payroll/formula.evaluator.ts:129-153 | With the listed references bound no reference is unknown: only a division by zero can fail. |
| SalaryComponents.ResolveMonthlyAmounts | apps/api/src/payroll/salary-components.util.ts:22-62 | A map is returned if and only if it is a solution of all the components' defining equations, and it is then that solution; it fails if and only if there is an obstacle (undefined reference, circular chain, formula that does not parse, zero divisor), and reports a true one. |
| SalaryComponents.Resolver.Resolve | apps/api/src/payroll/salary-components.util.ts:31-58 | The memoised depth-first search returns with the code resolved, earlier results and the visiting set as they were, or with an obstacle. |
| SalaryComponents.ResolutionIsUnique | apps/api/src/payroll/salary-components.util.ts:22-62 | Two solutions of the same components are equal. |
| SalaryComponents.ObstacleExcludesResolution | apps/api/src/payroll/salary-components.util.ts:34-55 | Each kind of reported error rules out that any amounts solve the components. |
| SalaryComponents.OrderDoesNotMatter | apps/api/src/payroll/salary-components.util.ts:22-62 | With distinct codes the listing order changes neither whether there is a solution nor which. |
| FormulaLaws.Sums | apps/api/src/payroll/formula.evaluator.ts:129-153 | Of evaluated trees, sums commute and associate, adding nothing changes nothing, and a tree added to itself is twice it. |
| FormulaLaws.Differences | apps/api/src/payroll/formula.evaluator.ts:129-153 | Subtracting is adding the negative and is undone by adding. |
| FormulaLaws.Products | apps/api/src/payroll/formula.evaluator.ts:129-153 | Products commute, distribute over sums and have one as their unit. |
| FormulaLaws.Quotients | apps/api/src/payroll/formula.evaluator.ts:129-153 | Dividing fails exactly on a zero divisor and is otherwise undone by multiplying. |
| FormulaLaws.RestOfCtc | apps/api/src/payroll/salary-components.util.ts:27-56 | A component whose formula is CTC less a tree makes, with that tree's value, a twelfth of the annual CTC. |
| FormulaLaws.PercentOfCtcAmount | apps/api/src/payroll/salary-components.util.ts:44-45 | A percentage of CTC is so many hundredths of a twelfth of the annual CTC. |
| FormulaLaws.PercentOfBasicAmount | apps/api/src/payroll/salary-components.util.ts:46-47 | A percentage of Basic is so many hundredths of the resolved Basic. |
| Csv.ReadCsvGrid | apps/api/src/common/bulk-import.ts:133-173 | The character-by-character state machine computes the recursive reading `ReadGrid`: fields, quotes, line ends and the byte-order mark. |
| Csv.WriteThenRead | apps/api/src/common/bulk-import.ts:133-173 | A written table reads back unchanged if and only if every row survives: not empty, no carriage return outside quotes, no leading byte-order mark. |
| CsvLineEnds.AnyLineEndReadsBack | apps/api/src/common/bulk-import.ts:133-173 | A surviving table written with line feeds, carriage returns, or both as row ends reads back unchanged. |
| Csv.BankFileIsGrid | apps/api/src/payroll/bank-file-generator.ts:37-72 | The bank file is the writer's text of its header and cells, since amounts never need quoting. |
| Csv.BankFileReadsBack | apps/api/src/payroll/bank-file-generator.ts:50-72 | The importing reader returns the bank file's cells if and only if no cell written without quotes holds a carriage return. |
| Csv.AmountText | apps/api/src/payroll/bank-file-generator.ts:50-72 | An amount is written with its sign, without superfluous zeros, and with exactly two digits after the point; without the point it is the number of paise. |
| WorkerPool.BoundedConcurrency | apps/api/src/common/concurrency.util.ts:31-31 | In every reachable state at most max(1, min(limit, n)) calls are in flight. |
| WorkerPool.CallsBeginInOrder | apps/api/src/common/concurrency.util.ts:17-29 | Under every interleaving the begun calls are a prefix of the items, each once. |
| WorkerPool.FirstRejectionIsKept | apps/api/src/common/concurrency.util.ts:24-26 | The recorded failure is the first rejection of the run. |
| WorkerPool.NothingBeginsAfterFailure | apps/api/src/common/concurrency.util.ts:17-29 | Once a failure is recorded no call begins, and the failure stays. |
| WorkerPool.EveryRunDelivers | apps/api/src/common/concurrency.util.ts:8-35 | Every finished run throws the first rejection if and only if an item failed, and otherwise has every result at its own index. |
| WorkerPool.RunsEnd | apps/api/src/common/concurrency.util.ts:8-35 | Runs have at most three steps an item and one a worker, and none is stuck before all workers returned. |
| WorkerPool.MapWithConcurrency | apps/api/src/common/concurrency.util.ts:8-35 | The pool run under an arbitrary scheduler is such a run: it delivers all results in place, or throws the first rejection among the steps it took. |
| WindowLimiter.Limiter.Take | apps/api/src/auth/password-reset.service.ts:22-31 | One hit answers and changes the map as specified, pruning included. |
| WindowLimiter.Limiter.PruneExpired | apps/api/src/auth/password-reset.service.ts:33-35 | Exactly the expired entries go. |
| WindowLimiter.PruningIsInvisible | apps/api/src/auth/password-reset.service.ts:13-36 | From any counters, under a clock that never goes back, every answer is the one of a limiter that never prunes. |
| WindowLimiter.WindowIsBounded | apps/api/src/auth/password-reset.service.ts:13-36 | The limiter accepts a key at most max times (once, if max is less) in the window a hit opens, whatever the counters were. |
| WindowLimiter.AnyIntervalIsBounded | apps/api/src/auth/password-reset.service.ts:22-31 | In any half-open stretch of one window length it gets at most twice max, less one. |
| WindowLimiter.BoundIsAttained | apps/api/src/auth/password-reset.service.ts:22-31 | That bound is reached, so no smaller one holds. |
| IncomeTax.ValidateTaxSlabs | apps/api/src/payroll/payroll-config.service.ts:53-79 | Slabs are accepted, sorted, if and only if some order of them is gap-free from zero to an open end. |
| IncomeTax.ComputeSlabTax | apps/api/src/payroll/tds-calculator.ts:25-37 | The accumulating loop computes the sum over the slabs. |
| IncomeTax.IncomeIsSplitExactly | apps/api/src/payroll/tds-calculator.ts:25-37 | Over accepted slabs the parts of an income add up to the income. |
| IncomeTax.SlabTaxGrowsGently | apps/api/src/payroll/tds-calculator.ts:25-37 | Slab tax never falls, and never rises by more than the income does. |
| IncomeTax.ProjectAnnualTax | apps/api/src/payroll/tds-calculator.ts:55-74 | Standard deduction, rebate, marginal relief and cess in the order of the code. |
| IncomeTax.TaxNeverFalls | apps/api/src/payroll/tds-calculator.ts:55-74 | Pre-cess tax never falls as income rises, across the rebate threshold too. |
| IncomeTax.NoTaxCliff | apps/api/src/payroll/tds-calculator.ts:55-74 | Tax rises by no more than the income does, everywhere, if and only if marginal relief applies and the rebate covers the tax at the threshold, or the rebate takes nothing off there. |
| IncomeTax.OldRegimeHasCliff | apps/api/src/payroll/payroll-defaults.ts:110-139 | The default old regime without relief charges 12,500 rupees more on one rupee more. |
| IncomeTax.NewRegimeHasNone | apps/api/src/payroll/payroll-defaults.ts:100-139 | The default new regime with relief never does. |
| IncomeTax.AnnualTaxNeverFalls | apps/api/src/payroll/tds-calculator.ts:55-74 | The whole-year tax never falls as the gross rises. |
| TaxRegimes.DeductionsComeOffGross | apps/api/src/payroll/tds-calculator.ts:55-74 | Gross may be raised together with exemptions, or with the standard deduction, without effect. |
| TaxRegimes.NothingAboveDeductions | apps/api/src/payroll/tds-calculator.ts:55-74 | A gross that does not exceed the deductions is not taxed. |
| TaxRegimes.CessIsOnTop | apps/api/src/payroll/tds-calculator.ts:55-74 | A cess of c percent makes (100 + c) / 100 of the tax without one. |
| TaxRegimes.NewRegimeIgnoresExemptions | apps/api/src/payroll/tds-calculator.ts:104-121 | In the new regime declared exemptions change no month's deduction. |
| TaxRegimes.OldRegimeExempts | apps/api/src/payroll/tds-calculator.ts:104-121 | In the old one a rupee more of exemptions makes up for a rupee more of gross in the year. |
| TaxRegimes.GentleWithoutCliff | apps/api/src/payroll/tds-calculator.ts:104-121 | The projected tax of a year rises by no more than the gross with its cess, everywhere, if and only if the regime has no cliff, with relief in the new regime alone. |
| TaxRegimes.DefaultRegimes | apps/api/src/payroll/payroll-defaults.ts:100-139 | On the default slabs that holds of the new regime and fails of the old one, whatever the exemptions. |
| TaxRegimes.InstalmentIsEven | apps/api/src/payroll/tds-calculator.ts:104-121 | A month deducts an even part of what is owed for the year, to the nearest rupee; nothing if none is owed or no month is left. |
| TaxRegimes.AprilOfNewRegime | apps/api/src/payroll/tds-calculator.ts:104-121 | 107,000 rupees in April of the new regime: relief leaves 9,000 before cess, and 780 are deducted. |
| FinancialYear.FinancialYearPeriods | apps/api/src/payroll/financial-year.util.ts:17-31 | April to March of the year the period is in. |
| FinancialYear.PlaceInYear | apps/api/src/payroll/financial-year.util.ts:17-42 | A period is at its own place, so the months remaining and the elapsed periods are what the calendar says. |
| FinancialYear.ElapsedIsEarlierInYear | apps/api/src/payroll/financial-year.util.ts:39-42 | A period has elapsed if and only if it is earlier in the same financial year. |
| Tds.BuildHistory | apps/api/src/payroll/tds.service.ts:153-167 | One pass over all employees' line items gives each employee's totals over processed, non-reprocess runs of the elapsed periods. |
| Tds.MonthlyFeedback | apps/api/src/payroll/tds.service.ts:125-195 | With other years' line items present, each month's deduction depends on exactly the months before it. |
| Tds.NeverAheadOfProjections | apps/api/src/payroll/tds-calculator.ts:104-121 | Up to February no more has been deducted than some month projected for the whole year. |
| Tds.WholeYearTds | apps/api/src/payroll/tds-calculator.ts:104-121 | For any twelve grosses the year's deductions are within half a rupee of the larger of the tax on the actual gross and what was deducted through February. |
| Tds.ConstantGrossYear | apps/api/src/payroll/tds-calculator.ts:104-121 | With the same gross every month they are within half a rupee of the annual tax. |
| TaxYear.HistoryIsMonths | apps/api/src/payroll/tds.service.ts:153-167 | Over the stored line items of all payroll runs, the history of a month is the gross and tax of the year's earlier runs. |
| TaxYear.YearOfRunsIsTaxed | apps/api/src/payroll/tds.service.ts:125-195 | Twelve processed runs whose tax is computed from that history deduct the year's tax to half a rupee, unless more was deducted by February. |
| TaxedRuns.EventsKeepTaxed | apps/api/src/payroll/payroll-run.service.ts:341-606 | Over any events whose drafts and recalculations take the history from the stored runs, and that process a month before a later one is drafted, each ordinary line item keeps the tax its history asks for. |
| TaxedRuns.YearOfEventsIsTaxed | apps/api/src/payroll/tds.service.ts:125-195 | So whatever such events lead to twelve paid months, these have deducted the year's tax to half a rupee, unless more was deducted by February. |
| LeaveEntitlement.AccrualPeriods | apps/api/src/leave/leave-entitlement.ts:68-84 | The loop yields the monthly or quarterly periods of the leave year. |
| LeaveEntitlement.PeriodsTile | apps/api/src/leave/leave-entitlement.ts:68-84 | They cover the year without gap or overlap. |
| LeaveEntitlement.EveryDayHasPeriod | apps/api/src/leave/leave-entitlement.ts:87-95 | Every day of the year is found in one of them. |
| LeaveEntitlement.EffectiveStart | apps/api/src/leave/leave-entitlement.ts:98-108 | The latest of the start of the year, joining and go-live. |
| LeaveEntitlement.CreditsDue | apps/api/src/leave/leave-entitlement.ts:131-168 | The loop over periods with its running remainder computes the specified credits. |
| LeaveEntitlement.OwedFallInPeriods | apps/api/src/leave/leave-entitlement.ts:131-168 | Every credit is positive, dated in its own period, and for a period not credited yet. |
| LeaveEntitlement.QuotaCapsCredits | apps/api/src/leave/leave-entitlement.ts:131-168 | Credits never take a type past the larger of its quota and what was credited before. |
| LeaveEntitlement.FullYearAccrual | apps/api/src/leave/leave-entitlement.ts:131-168 | Present all year, an employee ends at most half a hundredth of a day per period below the quota and never above it; the lemma says exactly when it is met. |
| LeaveEntitlement.CatchUp | apps/api/src/leave/leave-entitlement.ts:131-168 | What is owed today is what was owed earlier, followed by what is owed once that has been credited. |
| LeaveShares.StartInsidePeriod | apps/api/src/leave/leave-entitlement.ts:128-167 | Somebody who starts inside a period is credited for it the whole days nearest to the share of its quota that the days left make, halves up, as far as the quota reaches. |
| LeaveShares.LaterStartBringsNoMore | apps/api/src/leave/leave-entitlement.ts:128-167 | Starting later within the period never brings more for it. |
| LeaveShares.AnnualGrant | apps/api/src/leave/leave-entitlement.ts:128-138 | The annual grant is the quota for the whole year, and the whole days nearest to the share of the year left otherwise; none beside a credit or an opening balance. |
| LeaveShares.LaterStartGrantsNoMore | apps/api/src/leave/leave-entitlement.ts:128-138 | A later start in the course of the year never brings a larger grant. |
| LeaveEntitlement.CarryForwardDays | apps/api/src/leave/leave-entitlement.ts:171-174 | All of the cap or all of the unused days, whichever is less, and nothing when either is not positive. |
| LeaveAccount.PostKeepsReconciled | apps/api/src/leave/leave-entitlement.service.ts:265-290 | An entry keeps row and ledger in agreement if and only if the row changes by its delta and the new balance is on it. |
| LeaveAccount.BalanceAfterIsPrefixSum | apps/api/src/leave/leave-entitlement.service.ts:274-286 | In such a ledger every entry's `balanceAfter` is the sum of all deltas so far. |
| LeaveAccount.EarlierRunIsInvisible | apps/api/src/leave/leave-entitlement.service.ts:69-185 | Running on an earlier day first makes no difference to the account after a later run. |
| LeaveAccount.LaterRunCoversEarlier | apps/api/src/leave/leave-entitlement.service.ts:69-185 | A run on a day already caught up changes nothing. |
| LeaveAccount.MissedAndRepeatedDaysDoNotMatter | apps/api/src/leave/leave-entitlement.service.ts:62-185 | Any runs within the year, with gaps, repeats and out of order, leave the account that one run on the latest day leaves. |
| LeaveEngine.ReadLedger | apps/api/src/leave/leave-entitlement.service.ts:122-150 | One pass nets accruals and reversals per employee, type and period, as the account's own entries say. |
| LeaveEngine.CreditsFor | apps/api/src/leave/leave-entitlement.service.ts:155-170 | The credits computed for one employee and type are those the account is owed. |
| LeaveEngine.ApplyPolicyDefaults | apps/api/src/leave/leave-entitlement.service.ts:69-185 | Every covered account receives exactly one run of the engine, no other account changes, and all books stay reconciled. |
| LeaveYearEnd.ApplyCarryForward | apps/api/src/leave/leave-entitlement.service.ts:193-263 | In the first week of the year, and only then, each account without a carry-forward entry receives what it may carry. |
| LeaveYearEnd.CarryForwardHappensOnce | apps/api/src/leave/leave-entitlement.service.ts:187-192 | A second carry-forward of an account credits nothing, whatever the previous year says then. |
| LeaveServing.OnlyServedAreCredited | apps/api/src/leave/leave-entitlement.service.ts:69-185 | A run changes no account but those of listed employees not separated and active, accrued types with a quota. |
| LeaveServing.ServedGetWhatIsEarned | apps/api/src/leave/leave-entitlement.service.ts:69-185 | A served account without policy credits is brought to what its type has earned since joining, go-live or the year's start, up to the quota. |
| LeaveServing.OnlyAccruedAreReversed | apps/api/src/leave/leave-policy-recalc.service.ts:94-135 | A recalculation reverses nothing of types that grant per event or for days off worked. |
| LeaveServing.CarryBrings | apps/api/src/leave/leave-entitlement.service.ts:187-263 | The available days rise by the unused ones up to the cap for employees still there, of active accrued types, once in a year; nobody else's rise. |
| LeavePosting.AccruedPostingReconciles | apps/api/src/leave/leave.service.ts:1389-1415 | Posting accrued days keeps the ledger reconciled if and only if there is a row or the days are not negative. |
| LeavePosting.UsedPostingReconciles | apps/api/src/leave/leave.service.ts:1418-1454 | Likewise for used days. |
| LeavePosting.ApprovalReconciles | apps/api/src/leave/leave.service.ts:1144-1184 | A final approval keeps the account reconciled. |
| LeavePosting.CancellationReconciles | apps/api/src/leave/leave.service.ts:1015-1044 | So does cancelling, when there is a row. |
| LeavePosting.ApproveThenCancel | apps/api/src/leave/leave.service.ts:1015-1184 | Approving and cancelling restores the row if and only if the request carries an event date exactly when its type grants per event, or asks for no days. |
| LeavePosting.ApproveThenCancelFirst | apps/api/src/leave/leave.service.ts:1015-1184 | For an account's first request an empty row is left behind. |
| LeaveBooks.Books.AdjustUsedDays | apps/api/src/leave/leave.service.ts:1418-1454 | Posts used days to one account, leaves the others alone, and keeps the account sound. |
| LeaveBooks.Books.AdjustAccruedDays | apps/api/src/leave/leave.service.ts:1389-1415 | The same for accrued days; sound unless days are taken from a missing row. |
| LeaveBooks.Books.AdjustBalanceManual | apps/api/src/leave/leave.service.ts:780-812 | The books stay reconciled if and only if there is a row or the change is not negative: a negative first change is clamped in the row but not in the ledger. |
| LeaveBooks.Books.CreditCompOff | apps/api/src/leave/leave.service.ts:1500-1542 | One day, at most once per date when posted that day. |
| LeaveBooks.RunKeepsSound | apps/api/src/leave/leave-entitlement.service.ts:69-185 | An engine run keeps an account reconciled and its policy credits non-negative per period. |
| LeaveBooks.ReversalKeepsSound | apps/api/src/leave/leave-policy-recalc.service.ts:136-177 | So does reversing its credited periods. |
| LeaveRecalculation.ReverseEmpties | apps/api/src/leave/leave-policy-recalc.service.ts:136-177 | Reversing leaves no policy credit in any period. |
| LeaveRecalculation.RecalculationForgetsHistory | apps/api/src/leave/leave-policy-recalc.service.ts:108-179 | Each period then nets to what the engine credits from an empty policy ledger, and the balance moves by just that difference. |
| LeaveRecalculation.SecondRecalculationChangesNothing | apps/api/src/leave/leave-policy-recalc.service.ts:108-179 | Recalculating again changes no balance. |
| LeaveRecalculation.UncoveredLosesPolicyCredits | apps/api/src/leave/leave-policy-recalc.service.ts:94-179 | An account the engine no longer serves loses all its policy credits. |
| LeaveRecalculation.RecalculationTouchesOnlyPolicyCredits | apps/api/src/leave/leave-policy-recalc.service.ts:136-177 | Only accrual and reversal entries are added; nothing is removed and used days stay. |
| LeaveRecalculation.ReverseLeavesExcess | apps/api/src/leave/leave-policy-recalc.service.ts:136-177 | Of any account, reversing leaves as policy credit exactly what had been reversed in excess. |
| LeaveRecalculation.RecalculationForgetsExactly | apps/api/src/leave/leave-policy-recalc.service.ts:108-179 | For any account, recalculating leaves the policy credit of an empty policy ledger if and only if nothing had been reversed in excess, or what was earned fills the quota even so. |
| LeaveFrequencyChange.TwoMonthsCredited | apps/api/src/leave/leave-entitlement.service.ts:69-185 | Two months are credited to an empty account by an engine run. |
| LeaveFrequencyChange.ReversedWhileIdle | apps/api/src/leave/leave-policy-recalc.service.ts:94-179 | With the type switched off and made annual, recalculating reverses both in one go and credits nothing. |
| LeaveFrequencyChange.FrequencyChangeLosesDays | apps/api/src/leave/leave-policy-recalc.service.ts:108-179 | Switched on again and monthly, recalculating that account leaves one day where an empty policy ledger would leave two. |
| LeavePolicyRecalc.GroupCredits | apps/api/src/leave/leave-policy-recalc.service.ts:108-135 | Grouping nets each account's policy entries per period and keeps the earliest date. |
| LeavePolicyRecalc.RecalculatePolicyCredits | apps/api/src/leave/leave-policy-recalc.service.ts:57-179 | Every account is its own recalculated account, for some order of its credited periods; a go-live date too far ahead is refused and changes nothing. |
| LeavePolicyRecalc.RecalculatedCredits | apps/api/src/leave/leave-policy-recalc.service.ts:94-179 | Over the whole books: a served account ends with the credits of an empty policy ledger, any other with none. |
| LeaveRequests.Apply | apps/api/src/leave/leave.service.ts:844-968 | Refused, or stored with exactly the loss-of-pay flag, event date and first status the rules give. |
| LeaveRequests.Approve | apps/api/src/leave/leave.service.ts:1078-1184 | The exact outcome for every status, level and document, and the postings of the final step. |
| LeaveRequests.Reject | apps/api/src/leave/leave.service.ts:1223-1238 | Rejects in any status, and takes no posting back. |
| LeaveRequests.Cancel | apps/api/src/leave/leave.service.ts:1015-1058 | Takes back what an approval posted, and only then. |
| LeaveUse.UseBalances | apps/api/src/leave/leave.service.ts:844-1238 | Over any applying, approving, rejecting and cancelling, and anything else that keeps used days, an account's used days change by the change of its approved requests' days and by what rejections of approved requests leave. |
| LeaveUse.UsedDaysAreApproved | apps/api/src/leave/leave.service.ts:844-1238 | So used days stay the days of the approved requests if and only if no event rejects a request already approved for days off the balance. |
| LeaveUse.RejectedDaysStayUsed | apps/api/src/leave/leave.service.ts:1223-1238 | Days approved, then rejected, and even then cancelled, stay used. |
| LeaveUse.OtherPostingsKeepUse | apps/api/src/leave/leave-entitlement.service.ts:69-185 | Engine runs, reversals, recalculations and accrued postings are such other things. |
| ManagerChains.AcyclicIsNoRevisit | apps/api/src/employees/employee-import.service.ts:536-545 | Nobody is above themselves if and only if no chain of managers meets somebody twice. |
| ManagerChains.EndsOrRevisits | apps/api/src/employees/employee-import.service.ts:536-545 | Every chain ends or meets somebody twice. |
| EmployeeImport.FlagDuplicates | apps/api/src/employees/employee-import.service.ts:434-455 | Exactly the rows whose code occurs again get an error, so that passing rows have codes of their own. |
| EmployeeImport.ManagerResolver.ClosesCycle | apps/api/src/employees/employee-import.service.ts:536-545 | True if and only if the chain from the code meets somebody twice, on any map. |
| EmployeeImport.ManagerResolver.constructor | apps/api/src/employees/employee-import.service.ts:498-511 | The manager map begins as the stored links with the passing rows' links on top. |
| EmployeeImport.ManagerResolver.CheckRow | apps/api/src/employees/employee-import.service.ts:516-531 | One row fails, and loses its link, if and only if its manager is a problem. |
| EmployeeImport.ManagerResolver.Resolve | apps/api/src/employees/employee-import.service.ts:512-534 | The loop ends and computes the fixpoint of the passes. |
| EmployeeImport.SurvivorsAreSound | apps/api/src/employees/employee-import.service.ts:492-534 | Every passing row's manager is an existing employee or on a passing row, and its chain of managers meets nobody twice. |
| EmployeeImport.FailuresAreJustified | apps/api/src/employees/employee-import.service.ts:516-531 | No row fails without a reason that is true, and each failing row gets one error. |
| EmployeeImport.ResolvedIsAcyclic | apps/api/src/employees/employee-import.service.ts:492-534 | From an acyclic database the resulting manager map is acyclic. |
| EmployeeImport.CommitStaysAcyclic | apps/api/src/employees/employee-import.service.ts:529-625 | The database stays acyclic after the import if and only if no chain from a failed row meets somebody twice in it: any cycle is through a link a failed row kept. |
| EmployeeImport.CommitStaysAcyclicForNewcomers | apps/api/src/employees/employee-import.service.ts:529-625 | So it does whenever no row that the resolution fails is of an employee with a stored manager. |
| EmployeeImport.ImportCanStoreCycle | apps/api/src/employees/employee-import.service.ts:529-529 | Otherwise it need not: two rows over four employees leave a reporting cycle in an acyclic database. |
| EmployeeImport.OrderDecides | apps/api/src/employees/employee-import.service.ts:515-533 | Which of two clashing rows fails depends on their order. |
| ImportOrder.FlaggedIsApart | apps/api/src/employees/employee-import.service.ts:434-455 | Flagging duplicates leaves passing rows whose codes nobody else has, the only thing asked of the rows below. |
| ImportOrder.FailuresAreLeast | apps/api/src/employees/employee-import.service.ts:512-534 | If no passing row's chain meets anybody twice, the failing rows are the least set that holds the failing ones and those whose manager is unknown or on a row in it. |
| ImportOrder.OrderIsNoMatter | apps/api/src/employees/employee-import.service.ts:512-534 | The same rows fail under every permutation of the rows if and only if each row on or below a loop fails by that set anyway, or meets every linking row of its chain before the chain leaves the rows. |
| ImportOrder.RankedImportStaysAcyclic | apps/api/src/employees/employee-import.service.ts:492-625 | If some rank falls along every stored link and every link a passing row asks for, the database stays acyclic, whatever the outcome. |
| ImportOrder.NewLinksStayAcyclic | apps/api/src/employees/employee-import.service.ts:492-625 | So does an acyclic database when no row gives a manager to somebody who has one already. |
| ImportOrder.TiedCommitStaysAcyclic | apps/api/src/employees/employee-import.service.ts:492-625 | With loops tied as above, or none, the database stays acyclic if and only if nobody whose row is known to fail meets somebody twice going up the stored links with those of the other rows on top: all said of the stored links and the rows alone. |
| Reporting.AssertNoReportingLoop | apps/api/src/employees/employees.service.ts:836-853 | A loop is reported if and only if the new manager is the employee or reports up to them; a missing manager otherwise; on any graph. |
| Reporting.ChangeStaysAcyclic | apps/api/src/employees/employees.service.ts:835-853 | A changed link keeps the graph acyclic if and only if the new manager does not report up to the employee. |
| Reporting.AcceptedIsExact | apps/api/src/employees/employees.service.ts:855-869 | Of the changes that name existing employees exactly those are accepted that leave the graph acyclic. |
| Reporting.Directory.SetManager | apps/api/src/employees/employees.service.ts:855-900 | Accepts exactly those, changes one link or nothing. |
| Reporting.Directory.Hire | apps/api/src/employees/employees.service.ts:433-448 | A new employee below an existing one keeps the graph sound. |
| Reporting.RunStaysAcyclic | apps/api/src/employees/employees.service.ts:835-900 | Any run of hires and manager changes stays acyclic. |
| Reporting.RecursiveReportIds | apps/api/src/common/reporting-hierarchy.ts:10-31 | The search ends with exactly the employees one or more reporting edges below, on any graph, cyclic or not. |
| OrgChart.LinkNodes | apps/api/src/employees/employees.service.ts:1275-1287 | Every employee is linked below their manager on the chart, in order, or is a root. |
| OrgChart.Chart.CountReports | apps/api/src/employees/employees.service.ts:1293-1299 | The post-order walk with its pruning builds a tree in which everybody occurs once, reports to the node above and is counted by it, and nobody is left out. |
| OrgChart.DrawChart | apps/api/src/employees/employees.service.ts:1275-1308 | One such tree per root, disjoint, or the one below the viewer. |
| OrgChart.TreeIsEveryoneBelow | apps/api/src/employees/employees.service.ts:1289-1299 | A tree holds its top and everyone who reports up to it, and its count is their number, in cycles too. |
| OrgChart.CountsAreExact | apps/api/src/employees/employees.service.ts:1289-1299 | On the company's chart every node at any depth shows the number of employees who report up to it. |
| OrgChart.EveryoneIsCharted | apps/api/src/employees/employees.service.ts:1289-1292 | That chart shows everyone if and only if nobody is above themselves. |
| WorkingDays.CountWorkingDays | apps/api/src/payroll/working-days.util.ts:16-32 | The day-by-day loop, of which leave keeps its own copy, counts the days that are neither holidays nor weekly offs. |
| WorkingDays.GetApprovedLopDaysBatch | apps/api/src/leave/leave.service.ts:488-512 | Each employee's total of clipped working days over their approved unpaid requests. |
| WorkingDays.MonthsAddUp | apps/api/src/leave/leave.service.ts:476-512 | The clipped days of consecutive months add up to those of the whole stretch. |
| WorkingDays.LopIsConserved | apps/api/src/leave/leave.service.ts:476-512 | A request is charged, over the months it spans, for exactly its own working days. |
| WorkingDays.BatchesAddUp | apps/api/src/leave/leave.service.ts:488-512 | So are the batches of all requests, per employee. |
| WorkingDays.OnlyApprovedUnpaidCounts | apps/api/src/leave/leave.service.ts:488-512 | A request of somebody else, a paid one, or one that is not approved costs nothing, wherever it is listed. |
| WorkingDays.PayableDaysInRange | apps/api/src/payroll/working-days.util.ts:53-71 | 0 <= payable <= working for every period, employment range and number of lost days. |
| WorkingDays.LopCountsLostDays | apps/api/src/leave/leave.service.ts:488-512 | The leave batch counts every working day on approved unpaid leave, and more than those if and only if two requests share one. |
| WorkingDays.HandoverPaysEveryDay | apps/api/src/payroll/working-days.util.ts:53-71 | Somebody leaving the day before another takes over: together they are paid for every working day of the period. |
| LossOfPay.GetLopDaysBatch | apps/api/src/attendance/attendance.service.ts:437-454 | What a payroll run takes off: each employee's finalised absences plus the leave batch, for everybody with either. |
| LossOfPay.StretchesAddUp | apps/api/src/attendance/attendance.service.ts:437-454 | Consecutive stretches of days take off what the whole of them does. |
| LossOfPay.OneDayOff | apps/api/src/attendance/attendance.service.ts:437-454 | A single day takes off one for its absence record and one for a request over it if it is worked. |
| LossOfPay.PaidForDaysNotLost | apps/api/src/payroll/payroll-run.service.ts:205-217 | For any attendance, requests, weekly offs and employment: nobody is paid for more than the employed working days without absence and unpaid leave, and for exactly those if and only if nothing is left of them, or no two requests share a working day, no absence is on a leave day, and all these days are employed working days. |
| LossOfPay.AbsentMondayIsLostTwice | apps/api/src/attendance/attendance.service.ts:437-454 | One request approved for a Monday already recorded absent costs two days: the condition fails although no two requests share a day. |
| LossOfPay.MondayIsLostTwice | apps/api/src/leave/leave.service.ts:505-510 | So do two approved requests for one Monday, nothing refusing the second. |
| LossOfPay.SyncAttendanceForLeave | apps/api/src/leave/leave.service.ts:1464-1489 | The day loop creates a mark for exactly the working days without a record, or deletes exactly such marks. |
| LossOfPay.SyncForgivesNoAbsence | apps/api/src/leave/leave.service.ts:1464-1489 | Approving and cancelling change nobody's absences, so a day once absent is lost twice when its leave is approved. |
| LossOfPay.WholePeriodUnpaid | apps/api/src/payroll/payroll-run.service.ts:205-217 | Lost days are counted with the company's weekly offs and payable ones with the employee's, so unpaid leave all period leaves nothing payable if and only if the employee works no more days than the company does and absences add. |
| LossOfPay.SaturdayIsPaid | apps/api/src/payroll/payroll-run.service.ts:205-217 | A week without absences in which that fails. |
| PayrollCalculator.RangeChecksNeverFire | apps/api/src/payroll/payroll-calculator.ts:113-119 | On days from the working-day count only a negative net pay is refused. |
| PayrollCalculator.LossOfPayIsTheRest | apps/api/src/payroll/payroll-calculator.ts:125-159 | Gross and loss-of-pay deduction add up to the full gross to the paisa, despite rounding every line. |
| PayrollCalculator.GrossFollowsPayableDays | apps/api/src/payroll/payroll-calculator.ts:121-158 | Gross never falls as payable days are added, is the full gross when all are payable and the overtime alone when none is. |
| PayrollCalculator.EpfIsOnBasicOnly | apps/api/src/payroll/payroll-calculator.ts:159-171 | EPF is charged on the prorated Basic, up to the ceiling unless lifted; no other component and no overtime changes it. |
| PayrollCalculator.EsiIgnoresLostPay | apps/api/src/payroll/payroll-calculator.ts:172-188 | Whether ESI applies depends on the full gross alone: above the ceiling it stays zero however much pay is lost. |
| PayrollCalculator.EveryGrossHasOneBand | apps/api/src/payroll/professional-tax.util.ts:19-34 | Over contiguous bands every gross from the lowest on lies in exactly one, whose amount (in February its own, if it has one) is charged. |
| StatutoryPay.RoundsToNearest | apps/api/src/payroll/payroll-calculator.ts:100-106 | Rounding goes to the nearest rupee, halves away from zero alike on both sides. |
| StatutoryPay.ComponentIsProrated | apps/api/src/payroll/payroll-calculator.ts:121-138 | A component is paid for the payable part of the working days, to half a paisa. |
| StatutoryPay.ProvisionsAreUnpaid | apps/api/src/payroll/payroll-calculator.ts:124-135 | Employer provisions are nobody's pay, wherever they are listed. |
| StatutoryPay.OvertimeIsRated | apps/api/src/payroll/payroll-run.service.ts:221-247 | Overtime is paid at its multiple of the hourly rate that Basic makes over the month's working days and shift hours, to half a paisa, and only when switched on, worked and rateable. |
| StatutoryPay.OvertimeAddsToGross | apps/api/src/payroll/payroll-calculator.ts:140-156 | Overtime pay is added to the gross, full and actual, and without hours there is no line for it. |
| StatutoryPay.EsiIsOnPaidGross | apps/api/src/payroll/payroll-calculator.ts:172-188 | Up to the ceiling both shares of ESI are their own rate on the gross actually paid, to half a rupee. |
| StatutoryPay.EpfIsOnWages | apps/api/src/payroll/payroll-calculator.ts:159-171 | Both shares of EPF are their rates on the same wages, to half a rupee a rate. |
| StatutoryPay.ProfessionalTaxIsOnPaidGross | apps/api/src/payroll/payroll-calculator.ts:190-192 | Professional tax is the amount of the band that holds the gross actually paid, to half a rupee. |
| StatutoryPay.EmployerRatesAreNotDeducted | apps/api/src/payroll/payroll-calculator.ts:159-200 | The employer's rates change nothing in anybody's line item. |
| StatutoryPay.LineItemFigures | apps/api/src/payroll/payroll-run.service.ts:149-313 | A line item's gross, net pay, ESI, EPF and professional tax are each that of the employee's own components, days and settings, to the rounding. |
| LineItems.TaxOnlyMovesNetPay | apps/api/src/payroll/payroll-run.service.ts:262-278 | Tax changes nothing but itself and the net pay. |
| LineItems.LineItemIsConsistent | apps/api/src/payroll/payroll-run.service.ts:149-313 | The tax of the second pass is the one projected from the line item's own gross; net pay is not negative and is gross less EPF, ESI, professional tax and TDS. |
| LineItems.OnlyNegativeNetFails | apps/api/src/payroll/payroll-run.service.ts:149-313 | An employee with a work state and a structure is excluded only for a negative net pay. |
| PayrollOffice.AssembleLineItems | apps/api/src/payroll/payroll-run.service.ts:361-420 | The loop over employees computes the draft's items and the arrears rows they pay. |
| PayrollOffice.Payroll.CreateDraft | apps/api/src/payroll/payroll-run.service.ts:424-499 | The exact error, or the new run and the folded arrears in one step. |
| PayrollOffice.Payroll.Recalculate | apps/api/src/payroll/payroll-run.service.ts:501-606 | All items recomputed with their adjustments kept, or nothing changed and the first failure reported. |
| PayrollOffice.Payroll.SetLineItemAdjustments | apps/api/src/payroll/payroll-run.service.ts:608-648 | Replaces one item's adjustments and rebuilds its net pay, in draft or review only. |
| PayrollOffice.Payroll.SubmitForReview | apps/api/src/payroll/payroll-run.service.ts:650-669 | Draft to review, from draft only. |
| PayrollOffice.Payroll.Approve | apps/api/src/payroll/payroll-run.service.ts:672-715 | Records the approver once and moves on at two different ones. |
| PayrollOffice.Payroll.Process | apps/api/src/payroll/payroll-run.service.ts:724-841 | Stores payslips, changes no figure and moves an approved run on. |
| PayrollOffice.Payroll.Disburse | apps/api/src/payroll/payroll-run.service.ts:875-896 | Processed to disbursed. |
| PayrollOffice.Payroll.Revise | apps/api/src/payroll/salary-structure.service.ts:214-317 | Supersedes the structure and adds an unpaid row per affected paid run. |
| PayrollOffice.Payroll.Update | apps/api/src/payroll/salary-structure.service.ts:121-183 | Has the same outcome as a revision whether or not paid runs are affected. |
| PayrollRuns.RunsStaySound | apps/api/src/payroll/payroll-run.service.ts:424-896 | Over any events: every line item balances, no two ordinary runs share a period, and any run past review has at least two different approvers. |
| PayrollRuns.EventsAdvance | apps/api/src/payroll/payroll-run.service.ts:424-896 | Over any events: statuses only move forward, figures never change from approval on, and a row of arrears once folded never changes. |
| PayrollRuns.DraftPaysAndFolds | apps/api/src/payroll/payroll-run.service.ts:361-407 | A draft pays each included employee's unpaid arrears in full, row by row, and folds exactly those rows. |
| PayrollRuns.ArrearsAreConserved | apps/api/src/payroll/payroll-run.service.ts:361-479 | Over any events what is unpaid at the end is what was unpaid, plus all that revisions found, less all that drafts paid. |
| Approvals.HarmlessIsExact | apps/api/src/payroll/payroll-run.service.ts:501-648 | The events that leave the figures of a run as they are: exactly those that do not recalculate or adjust it, are refused because somebody's item cannot be computed, or whose facts and structures come to the days, gross, contributions and tax of every item, or whose adjustments are those it has. |
| Approvals.FiguresStandExactly | apps/api/src/payroll/payroll-run.service.ts:501-715 | From any moment on, such as the first approval, the figures of a run stand through any events if and only if every event among them is of that kind. |
| Approvals.ApprovedAsFirstSeen | apps/api/src/payroll/payroll-run.service.ts:501-715 | So a run that is not recalculated or adjusted after its first approval ends with the figures then approved, over any events. |
| Approvals.ChangeBetweenApprovals | apps/api/src/payroll/payroll-run.service.ts:501-715 | A recalculation or adjustment between the two approvals never stops the second; the figures approved are then the first approver's if and only if it changed none. |
| Approvals.SameInputsAreHarmless | apps/api/src/payroll/payroll-run.service.ts:501-606 | Recalculating from the facts, settings and structures that the figures were computed from changes none of them, whatever was adjusted, approved, or revised for others in between. |
| PayrollExample.FirstApprovalMayPredateFigures | apps/api/src/payroll/payroll-run.service.ts:501-715 | A run reached from the empty office and approved with one figure changed after the first approval, from 3000 rupees to none. |
| FoldedArrears.FoldedArrearsStandExactly | apps/api/src/payroll/payroll-run.service.ts:361-637 | Over any events after a draft, the arrears it folded for an employee stand in their pay if and only if nobody set that employee's adjustments in the run since, or the last to do so listed them all again. |
| PayrollExample.ArrearsCanBeDropped | apps/api/src/payroll/payroll-run.service.ts:608-637 | A thousand rupees, reached from the empty office, are folded and then adjusted away; whatever happens afterwards, they stay folded. |
| SalaryRevisions.ArrearsTelescope | apps/api/src/payroll/salary-structure.service.ts:255-283 | For any events the arrears found for a paid period are the net pay under the last structure less that under the first, except for what later-effective revisions change. |
| SalaryRevisions.EffectiveRevisionsTelescope | apps/api/src/payroll/salary-structure.service.ts:185-283 | If all revisions are effective by the period, with nothing excepted. |
| SalaryRevisions.LaterThenEarlier | apps/api/src/payroll/salary-structure.service.ts:255-283 | A later-effective revision followed by one that reaches back is settled against the former's structure: right if and only if that makes no difference to the net pay. |
| ArrearsPay.RowIsDifferenceOfPay | apps/api/src/payroll/salary-structure.service.ts:255-300 | A row is worth the net pay of the line item for the paid days under the new structure less that under the old one, before tax, without overtime and with the same EPF, ESI and professional tax. |

## Left out

- Csv.BankFileIsGrid: payment modes, which the file writes unescaped, are asked to need no quoting; the service only produces fixed upper-case names.
- Csv.BankFileReadsBack: the same.
- EmployeeImport.FlagDuplicates: duplicate codes only; duplicate login e-mails, the encryption key and the identity provider only add errors before the managers are resolved.
- EmployeeImport.CommitStaysAcyclic: every passing row is written; a write that fails is not modelled. The condition speaks of the rows that fail in the end; ImportOrder.TiedCommitStaysAcyclic speaks of the inputs, for loops that are tied.
- EmployeeImport.CommitStaysAcyclicForNewcomers: speaks of the rows that fail in the end; ImportOrder.NewLinksStayAcyclic speaks of the inputs.
- LeaveEngine.ApplyPolicyDefaults: one leave year and the whole company; limiting a run to some employees or types is not modelled.
- LeaveYearEnd.ApplyCarryForward: the previous year's rows are an input.
- LeaveBooks.Books.CreditCompOff: entries are posted with the caller's time; comp-off for overtime claims, which has no guard of its own, is not modelled.
- LeavePolicyRecalc.RecalculatePolicyCredits: the previewing mode, which rolls back, and the list of changed balances are not modelled; the groups may be visited in any order, where the code uses insertion order.
- LeaveRequests.Apply: the checks of dates, notice, gender, optional holidays and event rules that can refuse a request beforehand are not modelled.
- LeaveRequests.Approve: who may approve is not modelled, and whether a document is attached or not needed is an input.
- OrgChart.DrawChart: names, photos and contact details on a node are not modelled; the viewer's role decides which employee is passed in.
- Reporting.Directory.SetManager: the other edited fields are not modelled.
- PayrollRuns.RunsStaySound: operations run one at a time. Two drafts assembled at the same moment could both take the same unpaid arrears, since the update does not look at the rows' status again.
- PayrollOffice.AssembleLineItems: the stored list of exceptions, an output only, is not modelled.
- PayrollOffice.Payroll.Process: which employees have a payslip is an input; the PDF, the upload and the merged exceptions are not modelled.
- PayrollOffice.Payroll.Revise: the validation of components, the revision record and the order of the rows by period are not modelled.
- PayrollCalculator.LossOfPayIsTheRest: component amounts are taken as resolved, by what `SalaryComponents` models; an earnings line carries no more than the calculator uses.
- PayrollCalculator.EpfIsOnBasicOnly: the Basic component is asked to be listed once, as a stored structure's codes are unique.
- IncomeTax.ValidateTaxSlabs: the empty list, which the request's own validation refuses, is excluded.
- Tds.MonthlyFeedback: slabs, regime, configuration and exemptions are fixed over the year.
- TaxYear.YearOfRunsIsTaxed: that each month's tax was computed from the stored runs is a hypothesis here; TaxedRuns.YearOfEventsIsTaxed derives it.
- TaxedRuns.YearOfEventsIsTaxed: a month processed while a later one is already drafted is not covered, nor is a tax profile changed within the year.
- LossOfPay.GetLopDaysBatch: how a record becomes absent (the nightly finalisation, marking by HR, regularization) is not modelled; any records are covered.
- LeaveUse.UsedDaysAreApproved: one leave year, as for the accounts.
- decimal.js keeps 20 significant digits and JavaScript numbers are binary; here division is exact and leave days are whole hundredths.
- Time zones, the database, its row-level security and triggers, and failed transactions.
- Professional-tax slab validation, which repeats the income-tax one, and default slabs and rates: data.
- Roles and permissions, notifications, audit rows, reports and file formats other than the CSV ones.
- Event-leave limits, gratuity, full and final settlement: single-branch rules beside the above.
