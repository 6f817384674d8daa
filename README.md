# Pointer-dynamics login: a Dafny model

This project models the logic of a small behavioural-biometrics login
application. The application records how a user moves the mouse while
typing a password. It turns those pointer events into 23 numeric features
and asks a per-user anomaly model whether the movement looks like the
enrolled user.

The model has eight modules:

- `Wrappers` (`wrappers.dfy`): `Option` and `Result`.
- `Sorting` (`sorting.dfy`): the reordering by record timestamp, as an insertion sort proved to give an ordered permutation.
- `FeatureExtract` (`feature_extract.dfy`): `extract_features_with_labels` as functions over a batch of events. The batch is sorted, then the per-row columns are derived (time gap, distance, speed, acceleration, state transition). The result is the 23 features.
- `FeatureProperties` (`feature_properties.dfy`): what those features guarantee.
- `Windowing` and `WindowingProperties` (`windowing.dfy`, `windowing_properties.dfy`): `extract_features_with_windowing`. A method with the source's `while` loop is proved equal to a specification function. Lemmas state how windows partition the stream and when the function fails.
- `PasswordCapture` (`password_window.dfy`): the password window.
  - It is a class whose `OnMouseMove` updates the sample buffer and the previous position, time and capture start.
  - Each sample is labelled from its displacement, time gap and modifier mask.
  - The buffer holds at most 100 samples.
  - `Authenticate` checks the sample count, then the password, then the anomaly score.
- `Login` (`login_window.dfy`): the login window.
  - Models are loaded from a directory listing, and a user name is derived from each model file name.
  - The entered user name is stripped and checked before the password window opens.

Timestamps and coordinates are exact `real`s. The square root is a parameter `root`; lemmas that need it require `IsRoot(root)`, meaning non-negative results and `root(0) == 0`. The following are all parameters:

- the clock;
- the control frame's screen box;
- the directory listing;
- the model loader;
- the trained model's scoring function.

## Model

| member | source | states |
|---|---|---|
| Sorting.SortBy | feature_extract.py:10 | the batch reordered by non-decreasing record timestamp: ordered, the same multiset of rows, the same length |
| Sorting.SortedUnique | feature_extract.py:10 | two timestamp orderings of the same rows are equal when no two different rows share a timestamp |
| Sorting.SortByUnique | feature_extract.py:10 | under the same condition, every arrival order of the rows sorts to the same sequence |
| FeatureExtract.MaxOf | feature_extract.py:21 | the maximum of a non-empty column is one of its entries and bounds every entry |
| FeatureExtract.MinOf | feature_extract.py:62 | the minimum of a non-empty column is one of its entries and is below every entry |
| FeatureExtract.Rate | feature_extract.py:53 | `count / span` when the span is positive (rate times span is the count), 0 otherwise; positive exactly when span and count are |
| FeatureExtract.Row | feature_extract.py:20-55 | the emitted row has the 23 column names, in the order the source builds them |
| FeatureExtract.Extract | feature_extract.py:6-57 | the features of a batch, whatever its order: each state and button count equals the number of rows carrying exactly that literal, and the mean x and y are those of the batch |
| FeatureExtract.FeatureExtractor | feature_extract.py:75 | the extractor as the window loop and `authenticate` call it: defined on every non-empty batch and equal to `Extract` there |
| FeatureExtract.CountIfSort | feature_extract.py:10 | sorting the batch keeps every row count |
| FeatureExtract.SumOfSort | feature_extract.py:10 | sorting the batch keeps every per-row sum |
| FeatureExtract.CountState | feature_extract.py:25-27 | definition without a contract: the number of rows whose state is exactly the literal, 0 when none has it; `Extract`, `StateCountsBound` and `CountStateZero` state its meaning |
| FeatureExtract.CountButton | feature_extract.py:30-32 | definition without a contract: the number of rows whose button is exactly the literal, 0 when none has it; `Extract` and `ButtonCountsBound` state its meaning |
| FeatureExtract.AvgSpeed | feature_extract.py:20 | definition without a contract: the mean speed; `Kinematics` states it is non-negative on a sorted batch |
| FeatureExtract.MaxSpeed | feature_extract.py:21 | definition without a contract: the largest speed; `Kinematics` states it is non-negative on a sorted batch |
| FeatureExtract.AvgAcceleration | feature_extract.py:22 | definition without a contract: the mean acceleration; `Kinematics` states it is the last row's speed divided by the batch size |
| FeatureExtract.TimeDiff | feature_extract.py:13 | definition without a contract: the gap to the previous row, 0 for the first; `DerivedColumns` and `TimeDiffsTelescope` state its properties |
| FeatureExtract.Distance | feature_extract.py:16 | definition without a contract: the root of the squared step from the previous row, the root of 0 for the first; `DerivedColumns` states it is non-negative and 0 on the first row |
| FeatureExtract.Speed | feature_extract.py:17 | definition without a contract: distance over gap, 0 for a zero gap; `DerivedColumns` states its guards and its sign |
| FeatureExtract.Acceleration | feature_extract.py:18 | definition without a contract: the change of speed, 0 for the first row; `AccelerationsTelescope` states what the accelerations add up to |
| FeatureExtract.TransitionCount | feature_extract.py:35-38 | definition without a contract; `TransitionCountIsPairCount` and `TransitionsBound` state its meaning and bound |
| FeatureExtract.AvgDuration | feature_extract.py:40-43 | definition without a contract; `AvgDurationFacts` states its meaning |
| FeatureExtract.DragDistance | feature_extract.py:46-47 | definition without a contract; `DragFacts` states its sign and its value without Drag rows |
| FeatureExtract.DragAvgSpeed | feature_extract.py:46-48 | definition without a contract; `DragFacts` states its sign and its value without Drag rows |
| FeatureExtract.IdleTime | feature_extract.py:51 | definition without a contract; `IdleTimeBounds` states its bounds |
| FeatureExtract.TimeSpan | feature_extract.py:52 | definition without a contract: largest minus smallest timestamp; `SortedEnds` states it is last minus first on a sorted batch |
| FeatureExtract.ActionsPerSecond | feature_extract.py:53 | definition without a contract: `Rate` of the row count and the span; `ActionsPerSecondFacts` states its meaning |
| FeatureExtract.AvgX | feature_extract.py:54 | definition without a contract: the mean x; `Extract` states it is unchanged by the sort |
| FeatureExtract.AvgY | feature_extract.py:55 | definition without a contract: the mean y; `Extract` states it is unchanged by the sort |
| FeatureExtract.FeaturesOfSorted | feature_extract.py:13-55 | definition without a contract: the 23 features of a sorted batch; the `FeatureProperties` lemmas state what each one means |
| FeatureProperties.SchemaIsFixed | feature_extract.py:20-55 | any two calls emit the same 23 pairwise distinct column names in the same order |
| FeatureProperties.DerivedColumns | feature_extract.py:10-18 | the first row has time gap, distance, speed and acceleration 0; a zero gap gives speed 0; distances are non-negative; on a sorted batch every gap and speed is non-negative |
| FeatureProperties.StateCountsBound | feature_extract.py:25-27 | the four state counts sum to at most n, and to exactly n iff every row has one of the four literal states |
| FeatureProperties.ButtonCountsBound | feature_extract.py:30-32 | the three button counts sum to at most n, and to exactly n iff every row has one of the three literal buttons |
| FeatureProperties.CountStateZero | feature_extract.py:25-27 | a state count is 0 iff no row has that state |
| FeatureProperties.ArrowSplit | feature_extract.py:35 | joining two dash-free states with "->" is injective |
| FeatureProperties.TransitionCountIsPairCount | feature_extract.py:35-38 | the count of literal "p->q" is the number of indices i >= 1 with state p at i-1 and q at i; the first row contributes nothing |
| FeatureProperties.TransitionsBound | feature_extract.py:35-38 | the three tracked transition counts sum to at most n - 1 |
| FeatureProperties.TimeDiffsTelescope | feature_extract.py:13 | the time gaps of the first k rows add up to the time between row 0 and row k-1 |
| FeatureProperties.AccelerationsTelescope | feature_extract.py:18 | the accelerations of the first k rows add up to the speed of row k-1 |
| FeatureProperties.SortedEnds | feature_extract.py:52 | on a sorted batch the largest and smallest timestamps are those of the last and first rows |
| FeatureProperties.Kinematics | feature_extract.py:17-22 | on a sorted batch the mean and maximum speed are non-negative, and the mean acceleration is the last speed divided by n |
| FeatureProperties.AvgDurationFacts | feature_extract.py:41-43 | `avg_duration_S` is 0 when S is absent; otherwise it times the count of S equals the sum of the S rows' gaps (the first row's 0 included); it is non-negative on a sorted batch |
| FeatureProperties.DragFacts | feature_extract.py:46-48 | the drag distance is non-negative; the drag mean speed is non-negative on a sorted batch; both are 0 when there is no Drag row |
| FeatureProperties.IdleTimeBounds | feature_extract.py:51-52 | idle time lies between 0 and the batch's time span |
| FeatureProperties.ActionsPerSecondFacts | feature_extract.py:52-53 | the action rate is non-negative; it is 0 when the span is not positive; on a sorted batch it is positive iff the last timestamp exceeds the first |
| FeatureProperties.SingleEvent | feature_extract.py:13-55 | a one-row batch has speed, acceleration, idle time and action rate 0, and its own position as mean position |
| FeatureProperties.ExtractOrderFree | feature_extract.py:6-57 | when no two different rows share a timestamp, the whole feature vector is the same for every arrival order of the batch |
| FeatureProperties.ScenarioKinematics | feature_extract.py:13-21 | on a three-row batch the distances are 0, 5, 0, the speeds are 0, 10, 0 and the maximum speed is 10 |
| FeatureProperties.ScenarioCounts | feature_extract.py:25-38 | the same batch has two Move rows, one Pressed row, one Move->Pressed transition and mean position (2, 8/3) |
| Windowing.WindowMembers | feature_extract.py:68-69 | a window holds exactly the stream rows stamped in [lo, hi) |
| Windowing.OccurrencesPositive | feature_extract.py:77 | a value occurs a positive number of times iff it is in the column |
| Windowing.Mode | feature_extract.py:77 | the majority label is in the window, no label occurs more often, and it is the smallest among equally frequent labels |
| Windowing.StepsDecrease | feature_extract.py:66-82 | while the cursor is below the end, one step lowers the non-negative termination measure by one |
| Windowing.WindowStartsFacts | feature_extract.py:65-82 | the cursor visits the smallest timestamp first and advances one width per step; every visited start is below the end, and the step after the last is not |
| Windowing.WindowLoop | feature_extract.py:65-82 | the rows the loop appends are those of the non-empty windows at the visited starts, in order |
| Windowing.ExtractWithWindowing | feature_extract.py:59-85 | the method returns what the windowing function specifies: the rows, the empty-concatenation error or the non-terminating case |
| Windowing.ExtractSorted | feature_extract.py:62-85 | the same for the steps after the sort |
| Windowing.WindowFeatures | feature_extract.py:75-80 | the statements building one window's row compute `MakeRow` of that window |
| Windowing.Window | feature_extract.py:68-69 | definition without a contract; `WindowMembers` states its meaning |
| Windowing.WindowStarts | feature_extract.py:65-82 | definition without a contract; `WindowStartsFacts` and `StartsArithmetic` state which starts the cursor visits |
| Windowing.MakeRow | feature_extract.py:75-80 | definition without a contract: the window's features, its majority label when labelled, and its start |
| Windowing.Windowed | feature_extract.py:59-85 | definition without a contract; `WindowedOutcome` and `WindowedRows` state its outcomes and rows |
| Windowing.WindowedSorted | feature_extract.py:62-85 | definition without a contract; `SortedOutcome` and `RowsDescribeWindows` state its outcomes and rows after the sort |
| WindowingProperties.StartsArithmetic | feature_extract.py:65-82 | the k-th window start is t0 + k*w |
| WindowingProperties.StartsSpread | feature_extract.py:67-82 | any two window starts, in order, are at least one width apart |
| WindowingProperties.StartsCover | feature_extract.py:65-82 | every instant in [t0, t1) lies in the window of some visited start |
| WindowingProperties.SegmentsShape | feature_extract.py:65-82 | the emitted windows are non-empty and hold exactly the rows of their half-open intervals; they start at visited positions, ascend at least one width apart and are pairwise disjoint; every non-empty visited window is emitted; every row stamped in [t0, t1) lies in one of them |
| WindowingProperties.DisjointFromAscending | feature_extract.py:67-69 | half-open windows of one width that start at least a width apart share no row |
| WindowingProperties.StartsInRange | feature_extract.py:65-67 | every visited start lies in [t0, t1) |
| WindowingProperties.GridSteps | feature_extract.py:66-82 | when t1 = t0 + n*w the loop visits exactly n starts and the last window ends at t1 |
| WindowingProperties.BoundaryRowDropped | feature_extract.py:66 | when t1 is a whole number of widths past t0, a row stamped exactly t1 lies in no window |
| WindowingProperties.SpanIsZeroIffSameInstant | feature_extract.py:62-66 | the smallest and largest timestamps coincide iff all rows share one timestamp |
| WindowingProperties.FirstWindowKept | feature_extract.py:65-71 | the window at t0 holds the earliest row, so a stream with t0 < t1 yields at least one window |
| WindowingProperties.WindowedOutcome | feature_extract.py:59-85 | the concatenation error happens iff the stream is empty or single-instant; non-termination happens iff the timestamps differ and the width is not positive; otherwise rows come back |
| WindowingProperties.WindowedRows | feature_extract.py:65-84 | returned rows each carry a visited start whose window is non-empty, that window's features and (when labelled) its majority label; they ascend at least one width apart; every non-empty visited window has a row |
| WindowingProperties.RowsDescribeWindows | feature_extract.py:71-82 | the rows of the emitted windows describe those windows as above |
| PasswordCapture.SquaredDistance | main.py:206-211 | the squared displacement is non-negative and 0 iff the two positions coincide, which is when the source's distance is 0 |
| PasswordCapture.Classify | main.py:201-221 | button Left iff the mask is exactly 256 and Right iff exactly 512, else NoButton; state Pressed iff such a mask or zero displacement; Released iff neither, non-zero displacement and a gap above 1 second; Move otherwise |
| PasswordCapture.Inside | main.py:191 | definition without a contract: the pointer lies in the control frame's box, edges included |
| PasswordCapture.HasPrevious | main.py:204 | definition without a contract: a previous position and a non-zero previous time exist, as the source's truth test of both |
| PasswordCapture.SampleOf | main.py:198-230 | the sample's record timestamp is now minus the capture start, its client timestamp is now, its position is the motion's, and its state and button are `Classify` of the displacement, gap and mask |
| PasswordCapture.PasswordWindow.LabelMotion | main.py:201-221 | the labelling statements compute `Classify` |
| PasswordCapture.Push | main.py:223-230 | appending grows a non-full buffer by one and keeps a full one at 100; the new sample is last; the rest are the newest of the old samples, so a full buffer drops its oldest |
| PasswordCapture.PushAllKeepsNewest | main.py:223-230 | after any number of appends to an empty buffer it holds exactly the newest 100 samples, in order |
| PasswordCapture.MoveStep | main.py:177-242 | over the control frame (edges included) only the previous position and time are reset; elsewhere the capture start is fixed on first use, a sample is appended only when a previous position and time exist, and the current position and time become the previous ones; the buffer stays within 100, and position and time are set or reset together |
| PasswordCapture.ReplayConsistent | main.py:177-242 | from the initial state, any run of motion keeps the buffer within 100 and the previous position and time both set or both reset |
| PasswordCapture.FirstMotionOnlyPrimes | main.py:204-242 | a motion with no previous position adds no sample |
| PasswordCapture.GateOrder | main.py:146-175 | with fewer than 10 samples neither the password nor the model matters; with a wrong password the model does not matter; acceptance holds iff there are at least 10 samples, the password is "haslo" and the score is above -0.5 |
| PasswordCapture.Verdict | main.py:146-175 | definition without a contract: the count gate, then the password gate, then the score gate; `GateOrder` states their order and the acceptance condition |
| PasswordCapture.PasswordWindow.constructor | main.py:79-94 | a new window for the user and model, with an empty buffer and no previous position, time or capture start |
| PasswordCapture.PasswordWindow.OnMouseMove | main.py:177-242 | the new state is `MoveStep` of the old one, and the window stays consistent |
| PasswordCapture.PasswordWindow.Authenticate | main.py:146-175 | the outcome is the gate verdict on the samples held; an unusual movement empties the buffer; a wrong password or too few samples keep it; success closes the application |
| Login.RemoveAll | main.py:49 | Python's `replace(pat, '')`, removing occurrences left to right without overlap: never longer than its input (its meaning is stated by the three lemmas below) |
| Login.IsModelFile | main.py:47 | definition without a contract: the name ends with ".pkl" or ".joblib"; `PickleRoundTrip` and `ForestRoundTrip` use it |
| Login.UsernameOf | main.py:49 | definition without a contract: both tails removed in the source's order; `PickleRoundTrip` and `ForestRoundTrip` state what it recovers |
| Login.RemoveAbsent | main.py:49 | text in which the pattern never occurs is returned unchanged |
| Login.RemoveTail | main.py:49 | a dot-free name followed by a pattern whose first dot has no dot before it loses exactly that pattern |
| Login.PickleRoundTrip | main.py:47-49 | for a dot-free user name u, "u_model.pkl" is a model file whose derived user name is u |
| Login.ForestRoundTrip | main.py:47-49 | for a dot-free user name u, "u_isolation_forest.joblib" is a model file whose derived user name is u |
| Login.Strip | main.py:61 | the stripped entry neither starts nor ends with whitespace, and is empty iff the entry is all whitespace |
| Login.StripSlice | main.py:61 | the stripped entry is one contiguous piece of the entry with only whitespace before and after it |
| Login.StripIdempotent | main.py:61 | stripping twice is stripping once |
| Login.PaddedStrip | main.py:61 | whitespace added around the entry does not change the stripped text |
| Login.ModelPath | main.py:51 | the joined path ends with the file name |
| Login.LoadedUpTo | main.py:44-55 | definition without a contract: the models and the failure flag after the first k listed files; `LoadedFromFile`, `LoadedEveryUser` and `FailureStopsLoading` state its meaning |
| Login.LoadedModels | main.py:39-57 | definition without a contract: no models when the listing raises, else the models of all listed files |
| Login.LoadedFromFile | main.py:44-53 | every loaded user name comes from a listed model file whose load succeeded, and maps to that load's model |
| Login.LoadedEveryUser | main.py:44-53 | when no load failed, every listed model file's user name has a model |
| Login.FailureStopsLoading | main.py:44-55 | once a load raises, no later file changes the loaded models |
| Login.LoginWindow.LoadModels | main.py:39-57 | the loop returns exactly the models the loading specification gives, and reports an error iff listing or a load raised |
| Login.LoginWindow.constructor | main.py:13-22 | the window starts visible, holding the loaded models |
| Login.ResolveUsername | main.py:60-69 | the entry is refused as empty iff it is all whitespace; as unknown iff its stripped text is non-empty and has no model; otherwise the user is the stripped text, which has a model |
| Login.ResolveIgnoresPadding | main.py:61-69 | surrounding whitespace in the entry does not change the outcome |
| Login.LoginWindow.ShowPasswordWindow | main.py:60-75 | a refused entry changes nothing; an accepted one hides the login window and opens a fresh, empty password window for that user's model |

## Left out

- All tkinter work is not modelled: window setup, `setup_ui`, resizing, the canvas line drawing, the message boxes, clearing the password entry, `on_close` and `mainloop`.
- Assumed inputs:
  - the clock (`time.time()`) is a parameter of each motion;
  - the control frame's screen box is a parameter of each motion, because it can move with the window;
  - the directory listing is an `Option` of a sequence of names (`None` when `os.listdir` raises);
  - `joblib.load` is a function from a path to an optional scorer (`None` when it raises).
- The trained model's `score_samples` is an opaque function from the 23 features to a score. The one-row score array's mean is that score.
- `np.sqrt` is the parameter `root`. The password window compares squared displacement with 0 instead, which holds exactly when the distance is 0.
- IEEE floating point, infinities and not-a-number values are not modelled. Reals are exact, and the zero guards the code produces are written out.
- pandas internals (`value_counts`, `groupby`, DataFrame construction) are replaced by explicit passes over the event sequence.
- `sort_values` is not guaranteed stable. The model uses one particular timestamp-ordered permutation, a stable insertion sort.
  - Nine features are proved independent of the arrival order: the four state counts, the three button counts, `avg_x` and `avg_y`.
  - When no two different rows share a timestamp, `ExtractOrderFree` proves the whole vector independent of the order.
  - The other features depend on how rows with equal timestamps are ordered, which the source's unstable sort leaves open: the transition counts, the mean durations, the drag features, the speeds and the accelerations. For example, Move at (0, 0) and Pressed at (5, 0), both at time 0, give one Move->Pressed transition in that order and none in the other.
- The client timestamp is carried in each event but used by no feature.
- FeatureExtract.Extract: the extractor requires a non-empty batch. On an empty batch pandas yields not-a-number means, and both callers only pass non-empty batches.
- Windowing.ExtractSorted: with a non-positive window width, a stream whose timestamps are not all equal (smallest below largest) never ends in the source. The model returns the error value `NeverTerminates` there instead of looping, and `WindowLoop` is only entered with a positive width.
- Windowing.ExtractWithWindowing: the default width 1.0 is not modelled; callers pass the width `windowSize`.
- Windowing.ExtractWithWindowing: the stream carries an `is_illegal` label on every row or on none, chosen by `hasLabels`. A table whose label column is partly missing is not modelled.
- PasswordCapture.PasswordWindow.Authenticate and Windowing.ExtractWithWindowing: both take the extractor as a function value `extract` that must accept every non-empty batch. `FeatureExtract.FeatureExtractor` gives the one the source uses, and its contract equates it with `Extract`.
- Login.RemoveAll: modelled only for non-empty patterns, because both patterns the source removes are non-empty.
- Login.ModelPath: `os.path.join` is modelled with the Windows separator `\`, because the model directory is a Windows path.
- The commented-out duplicate of the password window at the end of feature_extract.py is dead code and is not part of this model.
- Windowing.Mode: ties go to the smallest label, because `Series.mode()` returns tied values sorted and the code takes `[0]`.
- An empty stream: the minimum and maximum of an empty column are not numbers, so the loop never runs and `pd.concat([])` raises. The model returns `NoObjectsToConcatenate` for it.
