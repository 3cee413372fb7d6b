# OSCATS core in Dafny

This project models the bookkeeping core of OSCATS, a C/GObject library for
computerized adaptive testing. It covers:

- **attribute patterns**: parsing, printing, single-bit get and set, copy and
  compare;
- **the characteristic registry**: names mapped to bit indices, with every
  live administrand's flag bits resized in step;
- **items, item banks and examinees**, with the examinee's response history
  and ability and pattern slots;
- **the continuous (IRT) model base**: dimensions, size guards, Fisher
  information and the parameter and covariate name tables;
- **the discrete (classification) model base** and its DINA and NIDA
  subclasses: probabilities and the derivatives of the log-likelihood;
- **the algorithms**: response simulation by an inverse-CDF walk, ability
  estimation control, exhaustive pattern estimation, and classification
  rates.

One Dafny module stands for each core source file. A few helper modules
support them:

- `Bits`: bit words as natural numbers;
- `Loadings`: the bit-array iterator;
- `Quarks`: interned strings;
- `Search`: first-match search;
- `ParamTable`: name-to-value parameter tables;
- `Walk`: the inverse-CDF walk that both simulators share;
- `Optional`: an option type.

## How the source is mapped

**Objects and values.**
- Objects whose fields the C code updates become Dafny classes. Examples:
  `Attributes.Attributes`, `Characteristics.Registry`,
  `Examinee.Examinee`, `ClassRates.ClassRates`.
- Pure computations become functions with lemmas about them.
- Integers are unbounded. A `guint8` index stays an explicit subrange.

**Numerics are parameters.** The `log` in the likelihoods, the subclass
probability of an IRT model, its derivative routines and the Newton solve
are all passed in as functions. Probabilities are exact `real`s. The uniform
draw of the simulators is an input.

**Shared code.**
- `item.c` repeats the characteristic-registry code of `administrand.c` for
  the item class. Both are modelled by the one `Characteristics.Registry`
  class, and the rows below cite `administrand.c`.
- `classmodel.c` is the same file as `discrmodel.c` before a rename, with
  every line one further down. Both are modelled by `DiscrModel`, and the
  rows below cite `discrmodel.c`.

**The half-finished rename.** The tree is in the middle of renaming the
item's model fields. `itembank.c` and the algorithms say `irt_model` and
`class_model`, while `item.h` says `cont_model` and `discr_model`. The model
has one `Item.Item` with an optional continuous model `cont` and an optional
discrete model `discr`.

**Subclasses.** Traits are not used. Each discrete model records its
subclass as a `kind` (DINA or NIDA), and the base dispatches on it. An IRT
model records what its subclass fixes: the parameter names, `get_max` and
the number of covariates.

**Where the code and the documentation disagree, the model follows the
code.**
- `from_string` counts only `'0'` and `'1'` as digits. It accepts space,
  tab, `\n` and `\r` between them.
- `get_attribute_rate` returns 0 for an index past the attributes rather
  than failing.
- `get_misclassify_freq` returns 0 for a count past the attributes.
- `nida.h` documents the NIDA parameter names as `Guess.i` and `Slip.i`, but
  `nida.c` names the second group `Diff.%d`. The model uses `Diff.d`.

Each defect listed under Findings is modelled twice:
- once as written, with a lemma that exhibits it;
- once corrected, with the intended property proved.

## Model

| member | source | states |
|---|---|---|
| Attributes.Digits | src/liboscats/attributes.c:112-118 | the digits kept from the text are at most as many as its characters, and every one is '0' or '1' |
| Attributes.ValueBits | src/liboscats/attributes.c:121-123 | after parsing, bit k of the word is set iff digit k is '1', and the word is below 2^num, so no bit at or above num is set |
| Attributes.RoundTrip | src/liboscats/attributes.c:179-189 | printing a parsed pattern gives back the text's digits with the blanks removed |
| Attributes.Attributes.constructor | src/liboscats/attributes.c:64-66 | a new pattern has the requested width and all bits clear |
| Attributes.Attributes.Get | src/liboscats/attributes.c:153-159 | get is true exactly for an index below num whose bit is set; an index outside the pattern reads FALSE |
| Attributes.Attributes.AsInt | src/liboscats/attributes.c:167-171 | the integer value is the data word, below 2^num and so below 2^32 |
| Attributes.Attributes.Set | src/liboscats/attributes.c:135-144 | an index below num then reads back the value set; every other bit and num are unchanged; an index at or past num changes nothing |
| Attributes.Attributes.AsString | src/liboscats/attributes.c:179-189 | exactly num characters, the i-th being '1' iff attribute i is set |
| Attributes.Attributes.Copy | src/liboscats/attributes.c:198-205 | the target takes the source's width and bits; the source is unchanged |
| Attributes.FromString | src/liboscats/attributes.c:110-125 | null exactly when some character is not a digit or blank, or the digit count is 0 or over 32; otherwise num is the digit count and bit k is digit k |
| Attributes.SetDigits | src/liboscats/attributes.c:121-123 | the second pass over the text leaves the value of the digits in the pattern and keeps it valid |
| Attributes.Compare | src/liboscats/attributes.c:216-221 | 0, -1 or 1 exactly as data is equal, smaller or larger; the widths play no part |
| Characteristics.Initial | src/liboscats/administrand.c:49-61 | the table starts with the single sentinel 0 -> 0 |
| Characteristics.Registered | src/liboscats/administrand.c:202-209 | registration as documented: a known quark leaves the table as it is, a new one is inserted at index = size |
| Characteristics.RegisteredAsWritten | src/liboscats/administrand.c:202-209 | as written the quark is appended to the array and given index = hash size every time; the hash grows only for a new quark, so a known one leaves array and hash out of step |
| Characteristics.RegisterNew | src/liboscats/administrand.c:202-209 | a new quark gets index = old size, every other quark keeps its index, and the table stays coherent |
| Characteristics.ReRegistrationCollides | src/liboscats/administrand.c:202-209 | as written, registering a known quark again and then a new one gives both the same index, and the table is no longer coherent |
| Characteristics.Registry.constructor | src/liboscats/administrand.c:49-61 | the registry starts with only the sentinel and no member |
| Characteristics.Registry.NewMember | src/liboscats/administrand.c:98-102 | a new administrand has one clear bit per registered index and joins the owners that are resized |
| Characteristics.Registry.Dispose | src/liboscats/administrand.c:104-111 | a disposed administrand leaves the owners; the table is unchanged |
| Characteristics.Registry.Register | src/liboscats/administrand.c:202-209 | a new quark takes index = size and is appended; every owner grows by one clear bit; a known quark changes nothing |
| Characteristics.Registry.Reset | src/liboscats/administrand.c:183-192 | back to the sentinel alone, and every owner is cut down to its one clear bit |
| Characteristics.Registry.Has | src/liboscats/administrand.c:291-296 | the bit at the quark's index; an unregistered quark is never present |
| Characteristics.Registry.Set | src/liboscats/administrand.c:244-255 | an unknown quark is registered first; then exactly its bit, at an index of at least 1, becomes set; every other owner keeps its bits when the quark was known and grows by one clear bit when it was new; no iterator moves |
| Characteristics.Registry.Clear | src/liboscats/administrand.c:264-270 | an unknown quark changes nothing; a known one loses only its own bit |
| Characteristics.Registry.ClearAll | src/liboscats/administrand.c:278-282 | every bit is cleared and the length is kept |
| Characteristics.Registry.IterReset | src/liboscats/administrand.c:304-308 | the iterator goes back to the first position; the bits are unchanged |
| Characteristics.Registry.IterNext | src/liboscats/administrand.c:317-323 | the quark at the next set bit at or after the iterator, the iterator moved past it, or 0 when no set bit is left |
| ClassRates.Mismatches | src/liboscats/algorithms/class_rates.c:127-130 | the number of attributes among the first n on which true and estimated patterns differ, at most n |
| ClassRates.NoMismatchMeansAgreement | src/liboscats/algorithms/class_rates.c:127-133 | no mismatch exactly when the patterns agree on every attribute |
| ClassRates.Bumped | src/liboscats/algorithms/class_rates.c:136-148 | the true pattern's entry, made at [0, 0] when new, counts one more examinee and one more exact hit only on a match; every other entry is kept; hits never exceed examinees |
| ClassRates.CountAttributes | src/liboscats/algorithms/class_rates.c:127-132 | the mismatch count, and each attribute counter raised by one exactly when that attribute agrees |
| ClassRates.ClassRates.constructor | src/liboscats/algorithms/class_rates.c:65-67 | all counters zero, an empty pattern tree, not registered |
| ClassRates.ClassRates.Register | src/liboscats/algorithms/class_rates.c:158-169 | only for a classification bank: takes the bank's attribute count, zeroes an attribute array of that length and a histogram one longer |
| ClassRates.ClassRates.Finalize | src/liboscats/algorithms/class_rates.c:121-149 | one more examinee; the mismatch count indexes the histogram, whose bar goes up by one; correct patterns goes up iff there is no mismatch; per-attribute counters as they agree; the tree bumped; histogram sum and bar 0 stay tied to the counters |
| ClassRates.ClassRates.NumExaminees | src/liboscats/algorithms/class_rates.c:177-181 | the examinee count, never below the correct-pattern count |
| ClassRates.ClassRates.PatternRate | src/liboscats/algorithms/class_rates.c:192-197 | no value before any examinee (0/0); otherwise the share of exact classifications, in [0, 1] |
| ClassRates.ClassRates.AttributeRate | src/liboscats/algorithms/class_rates.c:209-216 | 0 for an index past the attributes; no value before any examinee; otherwise a share in [0, 1] |
| ClassRates.ClassRates.MisclassifyFreq | src/liboscats/algorithms/class_rates.c:228-235 | 0 for a count past the attributes; no value before any examinee; otherwise a share in [0, 1] |
| ClassRates.ClassRates.NumExamineesByPattern | src/liboscats/algorithms/class_rates.c:247-257 | how many examinees had that true pattern; 0 without a tree, for a missing pattern and for a pattern never seen |
| ClassRates.ClassRates.RateByPattern | src/liboscats/algorithms/class_rates.c:272-282 | the exact-hit share among examinees with that true pattern, in [0, 1]; 0 without a tree or for a pattern never seen |
| Dina.ProbTotal | src/liboscats/models/dina.c:88-92 | P(0) + P(1) = 1, and a response outside {0, 1} has probability 0 |
| Dina.ProbRange | src/liboscats/models/dina.c:91-92 | with guess and slip in [0, 1] every probability is in [0, 1] |
| Dina.ProbOnlyLoaded | src/liboscats/models/dina.c:89-90 | two patterns of any widths that agree on every attribute in dims get the same probability, whatever their other bits |
| Dina.P | src/liboscats/models/dina.c:82-93 | the pass test over the loaded attributes, then 1 - slip or guess for response 1 and its complement for 0 |
| Dina.LogLikDerivatives | src/liboscats/models/dina.c:95-101 | for each pass/response case, the first and second derivatives of log P with respect to guess and slip |
| Dina.LogLikDerivativesAsWritten | src/liboscats/models/dina.c:112-134 | the additions as written touch only the slip entries on a pass and only the guess entries on a fail; on a fail with response 0 the guess score is -1/g and its second derivative is positive |
| Dina.DerivativesIdentities | src/liboscats/models/dina.c:112-135 | with the corrected derivatives, the expected score is 0 and the expected Hessian is minus the expected squared score |
| Dina.AsWrittenScoreNonzero | src/liboscats/models/dina.c:130-134 | with the signs as written, the expected guess score at guess 1/4 is not 0 |
| Dina.PassAsWrittenDisagrees | src/liboscats/models/dina.c:110-111 | for an item loading only on attribute 1 and the pattern "01", P counts a pass but the derivative's test does not |
| Dina.PassAsWritten | src/liboscats/models/dina.c:110-111 | the derivative's pass test as written: the examinee masters the first Ndims attributes of the pattern, whichever the item loads on; an item with more attributes than the pattern never passes |
| Dina.LogLikDparam | src/liboscats/models/dina.c:102-136 | adds, never overwrites, the corrected derivatives at the guess or slip entry only, as the pass test decides; a response outside {0, 1} changes nothing, and only there may a buffer be NULL |
| DiscrModel.Labelled | src/liboscats/models/nida.c:74-80 | `<prefix><d+1>` for each loaded attribute d, in order |
| DiscrModel.KindMax | src/liboscats/models/dina.c:77-80 | both subclasses have largest response 1 |
| DiscrModel.ParamNames | src/liboscats/models/nida.c:73-80 | Np names: Guess and Slip for DINA; Guess.d then Diff.d over the loaded attributes for NIDA |
| DiscrModel.NidaNamesIndexed | src/liboscats/models/nida.c:77-79 | name a of the NIDA table is the one the NIDA parameter index a is written at |
| DiscrModel.AttributeDims | src/liboscats/discrmodel.c:147-155 | Ndims is the number of set attributes of the Q row, and dims lists them in increasing order |
| DiscrModel.Intern | src/liboscats/models/nida.c:77 | the new name's quark, with every quark handed out before kept |
| DiscrModel.InternNidaNames | src/liboscats/models/nida.c:72-81 | the quarks of Guess.d and Diff.d land at the NIDA parameter indices |
| DiscrModel.InternNames | src/liboscats/models/dina.c:71-73 | each parameter's names slot holds the quark of that parameter's name |
| DiscrModel.Model.constructor | src/liboscats/discrmodel.c:139-160 | an absent Q row is a new empty pattern; dims are its set attributes; Np, zeroed parameters and interned names as the subclass sets them |
| DiscrModel.ProbWith | src/liboscats/discrmodel.c:247-254 | the subclass probability for given parameters: 0 for a pattern of another width or a response above 1 |
| DiscrModel.Model.Prob | src/liboscats/discrmodel.c:247-254 | 0 for a pattern of another width or a response above 1, else the subclass probability |
| DiscrModel.Model.GetMax | src/liboscats/discrmodel.c:231-235 | the subclass maximum; no response above it has any probability |
| DiscrModel.Model.ProbTotal | src/liboscats/discrmodel.c:247-254 | for a pattern of the model's width P(0) + P(1) = 1, each in [0, 1] for parameters in [0, 1] |
| DiscrModel.Model.P | src/liboscats/discrmodel.c:247-254 | the guarded probability |
| DiscrModel.Model.Forwards | src/liboscats/discrmodel.c:274-279 | the base's guards: the pattern's width is the test's, and each buffer given has Np entries (Np by Np for the Hessian) |
| DiscrModel.Model.LogLikDparam | src/liboscats/discrmodel.c:271-284 | nothing changes for a pattern of another width or a buffer given with the wrong size; otherwise the subclass derivatives are added into each buffer given; calls in which the subclass writes through NULL are refused |
| DiscrModel.DocumentedNullDereferenced | src/liboscats/discrmodel.c:260-261 | as written, the NULL buffers the documentation allows are written through by DINA for responses 0 and 1 and by NIDA for response 0 on an item with an attribute, but not by NIDA for response 1 nor for an item with no attribute |
| DiscrModel.Model.LogLikDparamNullSafe | src/liboscats/discrmodel.c:255-284 | as documented, either buffer may be NULL: no call is refused, and each buffer given receives the derivative of log P in each parameter (GradTerm, HesTerm) |
| DiscrModel.Model.HasParam | src/liboscats/discrmodel.c:322-329 | true iff some parameter is named q |
| DiscrModel.Model.GetParam | src/liboscats/discrmodel.c:351-359 | the value at the first index named q; 0 for an unknown name |
| DiscrModel.Model.SetParam | src/liboscats/discrmodel.c:397-409 | the first index named q takes v, nothing else changes; an unknown name changes nothing |
| DiscrModel.Model.GetParamByIndex | src/liboscats/discrmodel.c:338-342 | the parameter at the index; 0 at or beyond Np |
| DiscrModel.Model.SetParamByIndex | src/liboscats/discrmodel.c:384-389 | only that index changes; at or beyond Np nothing does |
| DiscrModel.Model.GetParamName | src/liboscats/discrmodel.c:293-298 | Some exactly for an index below Np whose quark has a string, and then that string, which interns back to the quark; NULL beyond Np |
| DiscrModel.Model.HasParamName | src/liboscats/discrmodel.c:307-313 | false for a string never interned; otherwise HasParam of its quark |
| DiscrModel.Model.GetParamByName | src/liboscats/discrmodel.c:370-376 | 0 for a string never interned; otherwise GetParam of its quark |
| DiscrModel.Model.SetParamByName | src/liboscats/discrmodel.c:419-425 | a string never interned changes nothing; otherwise SetParam of its quark |
| EstimateAlpha.Params | src/liboscats/algorithms/estimate_alpha.c:62-64 | the i-th entry is the parameter list of item i's discrete model |
| EstimateAlpha.ItemProb | src/liboscats/algorithms/estimate_alpha.c:63-64 | 0 for an item without a discrete model or a pattern of the wrong width |
| EstimateAlpha.Score | src/liboscats/algorithms/estimate_alpha.c:60-65 | the log-likelihood of the first n responses; 0 for none |
| EstimateAlpha.Best | src/liboscats/algorithms/estimate_alpha.c:66-75 | the best pattern among 0 .. k-1, below k |
| EstimateAlpha.BestIsFirstArgmax | src/liboscats/algorithms/estimate_alpha.c:60-77 | no pattern scores more than the result, and every smaller pattern scores strictly less: the first maximiser |
| EstimateAlpha.EmptyHistoryGivesZero | src/liboscats/algorithms/estimate_alpha.c:60-77 | with an empty history the result is pattern 0 |
| EstimateAlpha.AsWrittenPatterns | src/liboscats/algorithms/estimate_alpha.c:58 | the shift as written equals 2^num below 32 attributes |
| EstimateAlpha.AsWrittenPatternsAt32 | src/liboscats/algorithms/estimate_alpha.c:58 | at 32 attributes the shift gives 1, not 2^32, and the estimate is pattern 0 whatever the responses |
| EstimateAlpha.ItemP | src/liboscats/algorithms/estimate_alpha.c:70-72 | the guarded call of P for one item equals the item's probability under its current parameters, 0 without a model |
| EstimateAlpha.LogLik | src/liboscats/algorithms/estimate_alpha.c:68-73 | the loop's sum is the log-likelihood of the history under the current pattern |
| EstimateAlpha.Visit | src/liboscats/algorithms/estimate_alpha.c:66-75 | after visiting pattern cur the running best is the best of 0 .. cur |
| EstimateAlpha.Scan | src/liboscats/algorithms/estimate_alpha.c:66-75 | the loop over patterns 1 .. k-1 returns the first best of 0 .. k-1, the width untouched |
| EstimateAlpha.Search | src/liboscats/algorithms/estimate_alpha.c:58-77 | the pattern is left at the best of 0 .. k-1, and its width is kept |
| EstimateAlpha.NewWidth | src/liboscats/algorithms/estimate_alpha.c:50-53 | the width a new pattern gets: the requested count when it is 1 to 32, otherwise 0 |
| EstimateAlpha.Administered | src/liboscats/algorithms/estimate_alpha.c:40-78 | an estimate is made when missing, with the bank's width; its bits become the first maximiser over all 2^num patterns (0 for an empty history); its width and the rest of the examinee are unchanged |
| EstimateAlpha.Algorithm.Register | src/liboscats/algorithms/estimate_alpha.c:87-94 | connected only for a classification bank |
| EstimateTheta.NextFlag | src/liboscats/algorithms/estimate_theta.c:142-151 | the flag after one response: -1, 1 or 0 on the first item; afterwards kept only while the responses stay at the same extreme |
| EstimateTheta.FlagMeaning | src/liboscats/algorithms/estimate_theta.c:142-151 | the flag is -1 iff every response is 0, and 1 iff every response is the item's maximum (and not 0) |
| EstimateTheta.FlagAfter | src/liboscats/algorithms/estimate_theta.c:142-151 | the flag after a whole history lies in -1 .. 1, and once nonzero it is still what the first response set |
| EstimateTheta.Dispatch | src/liboscats/algorithms/estimate_theta.c:152-161 | a nonzero flag runs EAP only; otherwise MLE, then EAP iff MLE failed |
| EstimateTheta.MaxAbsTo | src/liboscats/algorithms/estimate_theta.c:258-263 | the running `diff` after n coordinates: nonnegative and no smaller than any of the first n steps in absolute value |
| EstimateTheta.MaxAbs | src/liboscats/algorithms/estimate_theta.c:258-263 | the running `diff`: nonnegative, and no step entry exceeds it in absolute value |
| EstimateTheta.Step | src/liboscats/algorithms/estimate_theta.c:247-256 | the Newton step from the gradient and Hessian summed over the history |
| EstimateTheta.SubTo | src/liboscats/algorithms/estimate_theta.c:258-266 | theta with its first n coordinates moved by minus the step and the rest untouched; all n gives the full update, none gives theta |
| EstimateTheta.NonFiniteInExists | src/liboscats/algorithms/estimate_theta.c:264-266 | the sticky failure flag after n coordinates is set exactly when one of them is not finite |
| EstimateTheta.Coordinate | src/liboscats/algorithms/estimate_theta.c:262-266 | one coordinate: only it moves, by minus the step; `diff` becomes the larger of itself and the step's absolute value; failure is set by a non-finite result and never cleared |
| EstimateTheta.Sweep | src/liboscats/algorithms/estimate_theta.c:258-267 | each coordinate counts an iteration and stops with failure at the iteration limit, having moved only the coordinates before it; otherwise theta moves by the whole step; a non-finite value fails |
| EstimateTheta.Mle | src/liboscats/algorithms/estimate_theta.c:216-282 | failing guards give failure with theta untouched; past them theta ends as the last iterate with a prefix of its coordinates stepped, all of them unless the iteration budget ran out mid-sweep; on success fewer than the maximum iterations were used, the last step was within TOL, every entry is finite, and the error matrix is written exactly when given |
| EstimateTheta.Eap | src/liboscats/algorithms/estimate_theta.c:301-366 | besides the MLE guards only a one-dimensional theta is accepted, otherwise nothing changes; then theta becomes the posterior mean and a given error matrix receives `sqrs - eap` |
| EstimateTheta.Settings.constructor | src/liboscats/algorithms/estimate_theta.c:195-284 | the defaults TOL = 1e-6 (line 195) and EPS = 1e-14 (line 284) |
| EstimateTheta.Settings.SetTol | src/liboscats/algorithms/estimate_theta.c:375-379 | a positive tolerance is stored, a non-positive one refused |
| EstimateTheta.Settings.SetEps | src/liboscats/algorithms/estimate_theta.c:388-392 | a positive threshold is stored, a non-positive one refused |
| EstimateTheta.Zeros | src/liboscats/algorithms/estimate_theta.c:179 | a zero vector of the bank's dimension |
| EstimateTheta.Identity | src/liboscats/algorithms/estimate_theta.c:184-189 | the identity matrix of the bank's dimension |
| EstimateTheta.Algorithm.Register | src/liboscats/algorithms/estimate_theta.c:171-193 | only for a continuous bank; a missing prior becomes zeros and the identity; a prior of the wrong size stops registration |
| EstimateTheta.Algorithm.Administered | src/liboscats/algorithms/estimate_theta.c:138-162 | the flag steps with the first item, the response and the item's maximum; the result names the estimators that run, as Dispatch decides from the new flag and whether the MLE fails; the prior is kept |
| Examinee.Examinee.constructor | src/liboscats/examinee.c:86-88 | nothing set and no history |
| Examinee.Examinee.Prep | src/liboscats/examinee.c:338-352 | both history arrays exist and are empty |
| Examinee.Examinee.AddItem | src/liboscats/examinee.c:363-369 | after prep the item and response are appended together; before prep nothing changes; no other field changes |
| Examinee.Examinee.NumItems | src/liboscats/examinee.c:377-382 | 0 before prep, then the history's length |
| Examinee.Examinee.SetTrueTheta | src/liboscats/examinee.c:176-184 | the stored vector equals the one given; nothing else changes |
| Examinee.Examinee.SetThetaHat | src/liboscats/examinee.c:210-218 | the stored vector equals the one given; nothing else changes |
| Examinee.Examinee.InitThetaErr | src/liboscats/examinee.c:242-246 | a dim x dim matrix; a zero dimension is refused |
| Examinee.Examinee.SetTrueAlpha | src/liboscats/examinee.c:273-280 | the pattern, made on first use as a fresh object (never the caller's pattern) and reused afterwards, takes the given width and bits; the estimate is untouched |
| Examinee.Examinee.SetAlphaHat | src/liboscats/examinee.c:305-312 | the estimate, made on first use and kept afterwards, takes the given width and bits; the true pattern is untouched |
| IrtModel.Shortcut | src/liboscats/irtmodel.c:193-196 | dim1 and dim2 are the first two loaded dimensions, a missing one being the iterator's -1 as unsigned |
| IrtModel.CountSet | src/liboscats/irtmodel.c:184-186 | the counting loop finds the number of set bits |
| IrtModel.ListSet | src/liboscats/irtmodel.c:198-201 | the filling loop lists the set positions in increasing order |
| IrtModel.FirstTwo | src/liboscats/irtmodel.c:190-194 | the two iterator steps give the first two set positions |
| IrtModel.Loading | src/liboscats/irtmodel.c:182-202 | Ndims set bits; below three they are in dim1 and dim2, otherwise listed in dims |
| IrtModel.InfoSumSymmetric | src/liboscats/irtmodel.c:420-421 | symmetric contributions per response give a symmetric information increment |
| IrtModel.InfoSumDiagonal | src/liboscats/irtmodel.c:420-421 | nonnegative diagonal contributions give a nonnegative diagonal |
| IrtModel.AddVector | src/liboscats/irtmodel.c:346-360 | the subclass adds into the caller's vector, never overwrites |
| IrtModel.AddMatrix | src/liboscats/irtmodel.c:406-422 | the subclass adds into the caller's matrix, never overwrites |
| IrtModel.Model.constructor | src/liboscats/irtmodel.c:172-207 | without a bit array the test is one-dimensional and loads on it; testDim is the array length; the loaded dimensions are its set bits |
| IrtModel.Model.P | src/liboscats/irtmodel.c:303-309 | 0 for an ability of the wrong size, otherwise the subclass probability |
| IrtModel.Model.Distance | src/liboscats/irtmodel.c:322-329 | 0 for an ability of the wrong size, otherwise the subclass distance |
| IrtModel.Model.LogLikDtheta | src/liboscats/irtmodel.c:346-360 | buffers of the wrong size change nothing; otherwise the ability derivatives are added |
| IrtModel.Model.LogLikDparam | src/liboscats/irtmodel.c:378-392 | buffers not of size Np change nothing; otherwise the parameter derivatives are added |
| IrtModel.Model.FisherInf | src/liboscats/irtmodel.c:406-422 | for each response 0 .. max the information-mode Hessian is added into I; wrong sizes change nothing |
| IrtModel.Model.GetParamName | src/liboscats/irtmodel.c:431-436 | Some exactly for an index below Np whose quark has a string, and then that string, which interns back to the quark; NULL beyond Np |
| IrtModel.Model.HasParamName | src/liboscats/irtmodel.c:445-451 | false for a string never interned |
| IrtModel.Model.HasParam | src/liboscats/irtmodel.c:460-467 | true iff some parameter is named q |
| IrtModel.Model.GetParamByIndex | src/liboscats/irtmodel.c:476-480 | 0 at or beyond Np |
| IrtModel.Model.GetParam | src/liboscats/irtmodel.c:489-497 | the first parameter named q; 0 for an unknown name |
| IrtModel.Model.GetParamByName | src/liboscats/irtmodel.c:508-514 | 0 for a string never interned |
| IrtModel.Model.SetParamByIndex | src/liboscats/irtmodel.c:522-527 | only that index changes; at or beyond Np nothing does |
| IrtModel.Model.SetParam | src/liboscats/irtmodel.c:535-547 | the first parameter named q takes v; an unknown name changes nothing |
| IrtModel.Model.SetParamByName | src/liboscats/irtmodel.c:557-563 | a string never interned changes nothing |
| IrtModel.Model.Covariates | src/liboscats/irtmodel.c:572-578 | the covariate names are the ncov parameter names from covStart on, a window on the name array rather than a copy |
| IrtModel.Model.GetCovariateName | src/liboscats/irtmodel.c:572-578 | Some exactly for an index below Ncov whose quark has a string, and then that string, which interns back to the quark |
| IrtModel.Model.HasCovariate | src/liboscats/irtmodel.c:587-595 | true iff some covariate is named q |
| IrtModel.Model.HasCovariateName | src/liboscats/irtmodel.c:604-610 | false for a string never interned |
| IrtModel.Model.SetCovariateName | src/liboscats/irtmodel.c:621-627 | only covariate slot index changes, and only for an index below Ncov and a nonzero name; the parameter name at covStart + index changes with it |
| IrtModel.Model.SetCovariateNameStr | src/liboscats/irtmodel.c:638-644 | the string is interned and its quark stored at the covariate index, which is also the parameter name at covStart + index; the quark table is kept for a known string and has the string appended for a new one, so earlier quarks keep their strings; beyond Ncov nothing changes |
| Item.Diagnose | src/liboscats/item.c:121-127 | a complaint when there is no model at all, or when both models are present with different maxima |
| Item.ContMax | src/liboscats/item.c:125 | no value exactly when the item has no continuous model, otherwise that model's get_max |
| Item.DiscrMax | src/liboscats/item.c:126 | no value exactly when the item has no discrete model, otherwise 1, the largest DINA or NIDA response |
| Item.Item.constructor | src/liboscats/item.c:108-129 | the item joins the registry with one clear bit per registered characteristic and keeps its models; the checks' complaint is recorded |
| ItemBank.MaxOf | src/liboscats/itembank.c:232-249 | no item's maximum exceeds it |
| ItemBank.ItemMax | src/liboscats/itembank.c:241-246 | the get_max of the continuous model in a continuous bank and of the discrete one otherwise, 0 (the getter's NULL guard) for a missing model |
| ItemBank.MaxOfAttained | src/liboscats/itembank.c:232-249 | the maximum is 0 or some item's maximum |
| ItemBank.ItemBank.constructor | src/liboscats/itembank.c:84-93 | an empty bank |
| ItemBank.ItemBank.AddItem | src/liboscats/itembank.c:163-178 | into an empty bank the item's dimensions are taken first; an item whose models disagree with the bank is refused; otherwise appended |
| ItemBank.ItemBank.GetItem | src/liboscats/itembank.c:202-207 | the item at the index; NULL beyond the last |
| ItemBank.ItemBank.IsIrt | src/liboscats/itembank.c:274-281 | the first item has a continuous model; false when empty |
| ItemBank.ItemBank.IsClass | src/liboscats/itembank.c:289-296 | the first item has a discrete model; false when empty |
| ItemBank.ItemBank.MaxResponse | src/liboscats/itembank.c:232-249 | the largest response any item allows, asking the model the bank's kind calls for |
| Loadings.FromSpec | src/liboscats/irtmodel.c:198-201 | the list holds exactly the set positions, each once, in increasing order |
| Loadings.NextSet | src/liboscats/irtmodel.c:185 | the first set position at or after the iterator, or -1 when none is left |
| Loadings.NextSetFrom | src/liboscats/irtmodel.c:184-186 | the iterator reports -1 exactly when no position is left, otherwise the next listed one |
| Nida.ProductRange | src/liboscats/models/nida.c:96-99 | with parameters in [0, 1] the product, and so P, is in [0, 1] |
| Nida.ProductInterior | src/liboscats/models/nida.c:96-99 | with parameters strictly in (0, 1) and an attribute loaded, P(1) is strictly in (0, 1) |
| Nida.P | src/liboscats/models/nida.c:90-101 | the product of 1 - s_j or g_j over the loaded attributes for response 1, its complement for 0, 0 outside {0, 1} |
| Nida.Decimal | src/liboscats/models/nida.c:76 | the decimal text of a number, as printed in the parameter names |
| Nida.ParamName | src/liboscats/models/nida.c:73-80 | the first Ndims names are the guesses and the rest the slips, told apart by their first letter (`Guess.` and `Diff.`) |
| Nida.AddResp1 | src/liboscats/models/nida.c:118-129 | the response-1 loop adds the gradient and Hessian of log P(1) |
| Nida.Resp1GradClosed | src/liboscats/models/nida.c:118-129 | the loop's gradient additions are the gradient of log P(1) |
| Nida.Resp1HesClosed | src/liboscats/models/nida.c:118-129 | the loop's Hessian additions are the Hessian of log P(1) |
| Nida.AddResp0Own | src/liboscats/models/nida.c:134-140 | outer pass j adds the response-0 score at its own parameter and minus its square on the diagonal |
| Nida.AddResp0Cross | src/liboscats/models/nida.c:141-151 | inner pass k adds the cross entries between the own parameters of j and k |
| Nida.AddResp0Row | src/liboscats/models/nida.c:141-167 | the inner loop of pass j adds every cross entry of attribute j |
| Nida.AddResp0Pass | src/liboscats/models/nida.c:134-167 | outer pass j: the score, the diagonal entry and the cross entries of attribute j |
| Nida.AddResp0Passes | src/liboscats/models/nida.c:134-168 | the outer loop over the attributes adds, pass by pass, every score, diagonal and cross entry of the response-0 branch |
| Nida.AddResp0 | src/liboscats/models/nida.c:130-169 | the response-0 branch adds the gradient and Hessian of log P(0) |
| Nida.Resp0GradClosed | src/liboscats/models/nida.c:130-169 | the loops' gradient additions are the gradient of log P(0) |
| Nida.Resp0HesClosed | src/liboscats/models/nida.c:130-169 | the loops' Hessian additions are the Hessian of log P(0) |
| Nida.LogLikDparam | src/liboscats/models/nida.c:103-170 | adds the derivatives of log P for the response to the gradient and Hessian; a response outside {0, 1} changes nothing; for response 1 a NULL buffer is skipped, for response 0 both must be given unless the item loads on no attribute |
| Nida.OddsForm | src/liboscats/models/nida.c:132-133 | the odds are P(1)/P(0), and 1/P(0) is one plus the odds |
| Nida.OddsAsWritten | src/liboscats/models/nida.c:132-133 | the ratio as written is the reciprocal of the odds P(1)/P(0) |
| Nida.ScoreRelation | src/liboscats/models/nida.c:137-154 | the response-0 score is minus the odds times the response-1 score |
| Nida.ScoreIdentity | src/liboscats/models/nida.c:118-156 | the expected score is zero at every parameter |
| Nida.CrossSecond | src/liboscats/models/nida.c:141-167 | the second identity holds at entries between the own parameters of two different attributes |
| Nida.InformationIdentity | src/liboscats/models/nida.c:118-169 | the expected Hessian is minus the expected outer product of the score, at every entry |
| Nida.Resp0GradAsWrittenBreaksScore | src/liboscats/models/nida.c:131-133 | with the ratio as written, the expected score at the slip is -8/9 instead of 0 for one example |
| Nida.Resp0GradAsWritten | src/liboscats/models/nida.c:137-154 | the response-0 score as written is the intended one divided by the square of the odds |
| Nida.Resp0HesAsWrittenBreaksIdentity | src/liboscats/models/nida.c:165-166 | with only the sign of lines 165-166 as written (Resp0HesSignAsWritten), the second identity fails at the entry between two guesses for one example |
| Nida.Resp0HesSignAsWritten | src/liboscats/models/nida.c:165-166 | the cross entry between two guesses added instead of subtracted, everything else (the ratio included) as intended: it differs from Resp0Hes at most in sign, and only off the diagonal between two guesses |
| Nida.Resp0HesAsWritten | src/liboscats/models/nida.c:130-169 | everything the response-0 loops add to hes[a, b] as written: minus the square of the score as written on the diagonal, CrossAsWritten between the own parameters of two attributes, 0 elsewhere; an entry is nonzero exactly at two own parameters, and the diagonal is never positive |
| Nida.ScaledAsWritten | src/liboscats/models/nida.c:137-140 | the cross factor as written: the ratio P(0)/P(1) over the attribute's factor, divided by 1 - p = P(1); always positive |
| Nida.CrossAsWritten | src/liboscats/models/nida.c:140-167 | the cross entry as written for two attributes: the lower one's ScaledAsWritten over the higher one's factor, negated only between two masteries, so the guess-guess entry is added |
| Nida.CrossAsWrittenSign | src/liboscats/models/nida.c:145-166 | a cross entry as written is never zero, and it is negative exactly between two masteries |
| Nida.Resp0HesAsWrittenScale | src/liboscats/models/nida.c:132-168 | the Hessian the response-0 loops add as written (ratio P(0)/P(1), cross entries divided by 1 - p = P(1), the guess-guess entry added): each diagonal entry is the intended one divided by L^4, L the odds; each cross entry is the cross entry as written of its two attributes where Resp0Hes has the intended one; every other entry is zero in both |
| Nida.ScaledAsWrittenScale | src/liboscats/models/nida.c:132-140 | the cross factor as written (ratio as written over the factor, divided by P(1)) times L^3 is the intended one (odds over the factor, divided by P(0)) |
| Nida.CrossScaleCases | src/liboscats/models/nida.c:140-167 | every cross entry as written times L^3 is the intended cross entry, negated between two guesses |
| Nida.Resp0HesAsWrittenSlipDiagonal | src/liboscats/models/nida.c:137-139 | one mastered attribute, guess 1/2, slip 1/4: the slip's diagonal entry is -16/81 as written, -16 in the Hessian of log P(0) |
| ParamTable.Get | src/liboscats/discrmodel.c:351-359 | the value at the first index named q; 0 for an unknown name |
| ParamTable.Put | src/liboscats/discrmodel.c:397-409 | the first index named q set to v, every other entry kept; unchanged for an unknown name |
| ParamTable.GetPut | src/liboscats/discrmodel.c:351-409 | reading back a name just set gives the value set; another name reads as before |
| Quarks.QuarkOf | src/liboscats/administrand.c:219-222 | the quark of an interned string: its position plus one |
| Quarks.QuarkTable.constructor | src/liboscats/administrand.c:219-222 | nothing interned yet |
| Quarks.QuarkTable.TryString | src/liboscats/irtmodel.c:448 | the quark of an interned string, 0 for others |
| Quarks.QuarkTable.ToString | src/liboscats/administrand.c:232-235 | NULL for 0 and for a quark never handed out; the string named maps back to the same quark |
| Quarks.QuarkTable.FromString | src/liboscats/administrand.c:219-222 | the existing quark of an interned string, otherwise a new one; earlier quarks kept |
| Search.Find | src/liboscats/discrmodel.c:322-329 | the first position at or after from holding x, if any |
| Search.First | src/liboscats/discrmodel.c:322-329 | the first position holding x, if any |
| Search.FirstIndex | src/liboscats/discrmodel.c:351-359 | the search loop stops at the first match, or reports none |
| SimulateAlpha.AutoRecordAsWritten | src/liboscats/algorithms/simulate_alpha.c:51-63 | as written, an algorithm made without the property does not record |
| SimulateAlpha.AutoRecordDefaultLost | src/liboscats/algorithms/simulate_alpha.c:51-57 | that differs from the declared default TRUE |
| SimulateAlpha.MaxOf | src/liboscats/algorithms/simulate_alpha.c:102 | the item's discrete-model maximum, at most 1; 0 without a model |
| SimulateAlpha.Probs | src/liboscats/algorithms/simulate_alpha.c:104-106 | one probability per response 0 .. max, each 0 without a model or true pattern |
| SimulateAlpha.Sample | src/liboscats/algorithms/simulate_alpha.c:102-115 | the walk lands on the response Draw gives, or falls through to 0 |
| SimulateAlpha.NoModelGivesZero | src/liboscats/algorithms/simulate_alpha.c:102-115 | without a model or a true pattern the response is always 0 |
| SimulateAlpha.Algorithm.constructor | src/liboscats/algorithms/simulate_alpha.c:51-57 | recording takes the value given, or the declared default TRUE |
| SimulateAlpha.Algorithm.SetAutoRecord | src/liboscats/algorithms/simulate_alpha.c:65-80 | the flag takes the value set |
| SimulateAlpha.Algorithm.Administer | src/liboscats/algorithms/simulate_alpha.c:99-116 | the drawn response, or 0; a drawn response is appended to a prepared history exactly when recording is on, and nothing else of the examinee changes |
| SimulateAlpha.Algorithm.Register | src/liboscats/algorithms/simulate_alpha.c:125-130 | connected only for a classification bank |
| SimulateIrt.MaxOf | src/liboscats/algorithms/simulate_irt.c:42 | the item's IRT-model maximum; 0 without a model |
| SimulateIrt.ProbOf | src/liboscats/algorithms/simulate_irt.c:45-46 | 0 without a model, without a true ability or for one of the wrong size; otherwise the subclass probability |
| SimulateIrt.Probs | src/liboscats/algorithms/simulate_irt.c:44-46 | one probability per response 0 .. max |
| SimulateIrt.Administer | src/liboscats/algorithms/simulate_irt.c:39-52 | the first response whose running probability exceeds the draw, at most max, or 0; the examinee is not changed |
| SimulateIrt.NoModelGivesZero | src/liboscats/algorithms/simulate_irt.c:42-51 | without a model or a usable ability the response is always 0 |
| SimulateIrt.ResponseSlice | src/liboscats/algorithms/simulate_irt.c:44-49 | response r comes out exactly when the draw falls in its slice [P(0)+...+P(r-1), P(0)+...+P(r)) |
| SimulateIrt.Algorithm.Register | src/liboscats/algorithms/simulate_irt.c:61-66 | connected only for an IRT bank |
| Walk.DrawFrom | src/liboscats/algorithms/simulate_irt.c:44-49 | the first response from k on whose running sum exceeds the draw, with every earlier one's not exceeding it |
| Walk.Draw | src/liboscats/algorithms/simulate_irt.c:44-49 | the smallest r with draw < P(0)+...+P(r), or none when no running sum exceeds the draw |
| Walk.Response | src/liboscats/algorithms/simulate_irt.c:44-51 | the drawn response, or 0 on the warning path |
| Walk.DrawInterval | src/liboscats/algorithms/simulate_irt.c:44-49 | for a draw of at least 0 and nonnegative probabilities, r is drawn iff the draw lies in [P(0)+...+P(r-1), P(0)+...+P(r)) |
| Walk.DrawHits | src/liboscats/algorithms/simulate_irt.c:50 | probabilities summing to 1 and a draw in [0, 1) never reach the warning |
| Walk.ZeroProbsGiveZero | src/liboscats/algorithms/simulate_irt.c:44-51 | all-zero probabilities give response 0 |

## Left out

- The numerics are parameters, not definitions:
  - `log` and `exp`;
  - the subclass probabilities and derivative routines of IRT models;
  - `g_gsl_matrix_solve` and `g_gsl_matrix_invert`;
  - EAP's quadrature weights.
  Floating point is modelled by exact reals, and `isfinite` is a parameter.
- The random draw `oscats_rnd_uniform` is an input to the simulators.
- GObject plumbing is not modelled: type registration, reference counting,
  signal connection, property tables and `g_critical` output. Registration
  is modelled as a `registered` flag.
- The logistic and nominal IRT models, and the item-selection algorithms,
  are not part of this model.
- Values stand in for shared objects in several places, so aliasing is not
  captured:
  - the IRT loading dimensions and the Q row are copied in;
  - the examinee's ability vectors are sequences;
  - item histories hold item objects but not shared response buffers.
- Dina.LogLikDparam requires guess and slip strictly inside (0, 1), because
  exact reals have no infinity: at 0 or 1 the C code divides by zero and
  adds an infinite value, which is not modelled.
- Nida.LogLikDparam requires every parameter strictly inside (0, 1), for the
  same reason: the infinite derivatives at 0 and 1 are not modelled.
- DiscrModel.Model.LogLikDparam requires `Interior()` (every parameter
  strictly inside (0, 1)) for the same reason, and excludes the calls that
  write through a NULL buffer (see Findings). A freshly made model, whose
  parameters are all 0, is excluded until its parameters are set.
- DiscrModel.Model.LogLikDparamNullSafe requires `Interior()` for the same
  reason; it accepts every combination of NULL buffers.
- Counters are unbounded. `guint` wrap-around of the examinee counters is
  not modelled.
- IrtModel.Model.constructor takes its covariate names from the subclass.
  The subclasses point `covariates` into their own `names` array. Naming a
  covariate there renames a parameter as well. The model keeps this
  aliasing: `Covariates()` is a window of `ncov` names starting at
  `covStart`. What the subclasses put there ("Cov.%d") is not modelled.
- EstimateTheta.Algorithm.Administered returns which estimators run but does
  not apply them to the examinee, and whether the MLE fails is an input:
  their effect on the estimate and its error is what Mle and Eap model.
- EstimateTheta.Eap does not model the NULL check on `mu` and `Sigma`
  (estimate_theta.c:313-315). The algorithm's registration always creates
  them (estimate_theta.c:176-188), so the prior is taken as given.
- Characteristics.Registry.Set requires a nonzero quark. Quark 0 is the
  sentinel and is never passed by callers that intern a name.
- ClassRates.ClassRates.Finalize: in by-pattern mode it requires a true
  pattern. The GTree's behaviour with a NULL key is not modelled.
- ClassRates.ClassRates.Finalize receives the examinee's two patterns rather
  than the examinee itself.
- ClassRates.ClassRates.MisclassifyFreq requires the algorithm to be
  registered for an in-range count. Before registration the source reads an
  unallocated histogram.
- EstimateAlpha.Search: the source's loop variable is `attr->data` itself.
  The model counts with a local and writes each value to the pattern before
  scoring it, which has the same effect.
- EstimateAlpha.Administered searches 2^num patterns, the evidently intended
  count. The as-written shift is kept in EstimateAlpha.AsWrittenPatterns.
- EstimateTheta.Eap: the quadrature sums `eap` and `sqrs` are inputs, because
  the quadrature is a fixed table of floating-point constants. The model
  states where they are stored, not how they are computed.
- IrtModel.Model.GetMax has no contract beyond returning the subclass's
  maximum. Its value is fixed by the constructor.
- Property getters that only return a field are not separate members:
  `auto-record`, `dims`, the test dimension and the model fields.
- Language-binding wrappers that only forward to glib are modelled by
  `Quarks`:
  - `characteristic_from_string`;
  - `characteristic_as_string`.

## Findings

| source | as written | input that shows it | evidently intended | confidence | as-written member | corrected member |
|---|---|---|---|---|---|---|
| src/liboscats/models/dina.c:110-111 | the derivative's pass test reads attributes 0 .. Ndims-1 | an item loading only on attribute 1, pattern "01" | test the loaded attributes `dims[i]`, as P does at lines 89-90 | high, not executed | Dina.PassAsWrittenDisagrees | Dina.LogLikDparam |
| src/liboscats/models/dina.c:130-134 | for a failed pass and response 0, subtracts 1/g from the guess gradient and adds 1/g^2 to the Hessian | guess 1/4: the expected guess score is nonzero | d/dg log(1-g) = -1/(1-g), with second derivative -1/(1-g)^2 | high, not executed | Dina.AsWrittenScoreNonzero | Dina.DerivativesIdentities |
| src/liboscats/models/nida.c:131-133 | the response-0 ratio is computed from P(0), giving P(0)/P(1) | one mastered attribute, guess 1/2, slip 1/4 | the odds P(1)/P(0) | high, not executed | Nida.Resp0GradAsWrittenBreaksScore | Nida.ScoreIdentity |
| src/liboscats/models/nida.c:137-140 | with p = P(0) the Hessian entries square the wrong ratio, and the cross entries divide by 1 - p = P(1) | one mastered attribute, guess 1/2, slip 1/4: the slip's diagonal entry is -16/81 | -16, the Hessian of log P(0); both go right once p = P(1) | high, not executed | Nida.Resp0HesAsWrittenSlipDiagonal | Nida.InformationIdentity |
| src/liboscats/models/nida.c:165-166 | the cross entry between two guesses is added | two unmastered attributes, every parameter 1/2 | subtracted, as the derivative of log P(0) requires | high, not executed | Nida.Resp0HesAsWrittenBreaksIdentity | Nida.InformationIdentity |
| src/liboscats/administrand.c:202-209 | a known name is inserted again with index = size and appended again | register "a", register "a" again, register "b": the second "a" and "b" share an index | leave a known name alone | medium, not executed | Characteristics.ReRegistrationCollides | Characteristics.RegisterNew |
| src/liboscats/algorithms/estimate_alpha.c:58 | `1 << attr->num` on a 32-bit int | a bank with 32 attributes: the shift count is taken mod 32 on x86, so K = 1 | K = 2^num patterns | medium, not executed | EstimateAlpha.AsWrittenPatternsAt32 | EstimateAlpha.BestIsFirstArgmax |
| src/liboscats/algorithms/simulate_alpha.c:51-57 | "auto-record" declares default TRUE without G_PARAM_CONSTRUCT, so the default is never stored | an algorithm made without the property: `record` is the zero-filled FALSE | record by default | medium, not executed | SimulateAlpha.AutoRecordDefaultLost | SimulateAlpha.Algorithm.constructor |
| src/liboscats/discrmodel.c:260-261 | the documentation lets either buffer be NULL, but `dina.c:117-134` and `nida.c:137-169` write both buffers without a NULL test | a DINA model, response 1, gradient given, Hessian NULL | skip an absent buffer, as nida.c:123-128 does for response 1 | high, not executed | DiscrModel.DocumentedNullDereferenced | DiscrModel.Model.LogLikDparamNullSafe |
