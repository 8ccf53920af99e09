# NeMo RL: a verified model of its trickiest logic

A Dafny model of the parts of NeMo RL whose correctness does not show in any one function, with
proofs of what they promise. `dafny verify dfyconfig.toml` checks all of it.

## What is modelled

**Configuration files.** A configuration is a tree of ordered mappings, lists and scalars;
inheritance merges parents and child, with `_override_` sections replacing what they inherit.
`minimize` takes out of a child what it inherits, `minimize-check` looks whether it would. The central
theorem says exactly when a minimised file still means what the original meant (`ConfigTree`,
`ConfigPrune`, `ConfigCli`, `MinimizeCommand`). Others say whose values come through (`Inheritance`), which of its entries are still redundant, by
what files mean (`Minimality`), and when pruning is what its documentation says (`DocumentedPruning`).

**Rewards read out of text.** The JSON object finder, the two scanners for boxed answers, the plain
brace counter and the format verifiers are index loops over text. Each is proved against a grammar
and a printer, in both directions: what was printed comes back, and what comes back was printed
(`Text`, `JsonFinder`, `GenrmJudge`, `BoxedAnswer`, `AnswerSettings`, `FormatCheck`). The finder's grammar
asks less of an object than RFC 8259: nested braces and strings count, anything else may stand between
them. `JsonTexts` shows that it covers every object of that standard.

**Advantages.** Generalized advantage estimation over a row with holes: the loop that carries its
accumulators over masked positions, and textbook estimation on the row with the holes taken out,
are the same (`Gae`), and obey the laws one expects of rewards, penalties and lambda (`EstimatorLaws`);
a batch of advantages is whitened by its valid tokens, to mean zero and unit variance (`Whitening`,
`WhitenedMoments`).

**Dynamic sampling.** Batches are generated until enough rows have a spread in their rewards. One
implementation keeps payloads in an external key store that must be cleaned up, the other keeps a
batch in memory. Both are related to one specification over the rows generated since the last
training step, for every sequence of batches (`DynamicSampling`, `LegacySampling`,
`SamplingRefinement`), which is told batch by batch (`SamplingMeaning`), and the store is followed over several epochs (`SamplingEpochs`).

**Training loops.** Counters, the last-step flag, checkpoints and resuming, as GRPO, distillation
and DPO have them (`TrainingLoop`), the same where a batch need not make a step
(`SampledTraining`), and which policy version the generation side holds while the loop refits, generates,
trains and validates (`Freshness`, `EpochAccounts`).

**Top-k and top-p.** Sorting, thresholds, cumulative mass and scattering back, in chunks, against
the definition of a nucleus in the row's own order (`Permutations`, `Nucleus`, `LogitFilter`).

**Masks and penalties.** Masking sequences whose probabilities disagree (`SequenceMasking`), token
loss masks written into messages (`MessageMasks`), and advantage penalties written into spans of a
tensor whose rows may share storage (`SpanPenalties`).

**Cyclic dataloaders.** Two samplers over dataloaders that start over when exhausted
(`CyclicSampler`).

Loops of the original are loops here, objects that it updates are objects, and each method is tied
by its postcondition to a specification function; the theorems are about those functions. `Wrappers`
and `Arithmetic` hold an option type and facts about products and quotients.

## Conventions

- Numbers are reals or unbounded integers. `exp` and softmax are an arbitrary weight that is
  monotone, positive, and zero at minus infinity (in `SequenceMasking`: at least one on non-negative
  numbers). The mass of a row of minus infinities is zero where the code has NaN; as with NaN, every
  comparison with it is false.
- The sort and the top-k selection are parameters, constrained by what a sort and a selection
  promise. They are functions of the row alone, so equal rows are ordered alike in every chunk; how
  they order ties is open.
- Reading JSON, finding fenced blocks, group statistics, the clock and the iteration budget enter as
  parameters.
- Trees are compared as Python compares plain containers: key order does not matter, list order
  does, scalars have one equality. `minimize-check` compares trees with their key order, as the
  emitted text would.
- A refit is one step that copies a policy version. Weights are version numbers.
- A dataloader's saved state is its position in the epoch, from which the next pass continues.

## Where the code and its documentation differ

- `_apply_message_level_advantage_penalties` is documented to overwrite advantages with the
  configured value. It adds the value and caps the sum at it, so a negative advantage ends below it
  (`SpanPenalties.SinglyFlagged`, `SpanPenalties.NegativeAdvantageIsNotOverwritten`).
- `_prune_equal` is documented to prune lists by index. It removes a list only whole
  (`ConfigPrune.ListsArePrunedWhole`); `DocumentedPruning.PrunesAsDocumentedIff` says for which trees that
  makes no difference.
- `verify_format` adds 7 to the position of the closing tag, which has 8 characters. For
  `\boxed{` this never matters; for a wrapper beginning with `>` it does (`FormatCheck.OffsetMatters`).
- `verify_think_format` is documented to extract the answer. It does so only when it found issues, so
  that an accepted response loses its answer (`FormatCheck.AnswerGivenIff`, `FormatCheck.AcceptedAnswerIsLost`).
- `minimize` is documented to remove keys equal to what is inherited. It also drops empty containers
  that differ from the inherited value, and takes entries from overriding sections that inherit
  nothing, so a file can change its meaning; `ConfigCli.SafeToMinimize` says exactly when it does not.
- Nor is a minimised file free of entries that equal what is inherited: an overriding section can keep a
  marker it does not need, and with `--base` what the base only inherits stays
  (`Minimality.MarkerCanBeRedundant`, `Minimality.RebasedKeepsInherited`). `Minimality.MinimizedNeedsIff` and
  `Minimality.RebasedNeedsIff` say exactly which entries are redundant.
- Key-store dynamic sampling documents that pending payloads live until they are trained on or evicted.
  Survivors that an epoch's end leaves unused stay in the store (`SamplingEpochs.StoreEmptyIff`,
  `SamplingEpochs.StoreCanKeepKeys`).
- `is_last_step` is meant to mark the final step. Under dynamic sampling it misses it once a batch of the
  last epoch is skipped, unless enough batches complete a step to use up `max_num_steps`
  (`SampledTraining.FinalStepFlaggedIff`).

## Model

| member | source | states |
|---|---|---|
| ConfigPrune.PruneEqual | tools/config_cli.py:234-270 | The recursion that fills its result key by key returns the specification `Prune`: shared keys stay only where pruned content is left, in the child's own key order |
| ConfigPrune.PrunePreservesMergeIff | tools/config_cli.py:234-270 | For every child, pruning base and inherited tree that carries the base's values where the child speaks: merging the pruned child gives the same tree as merging the child, at every depth, if and only if no empty list or mapping of the child hides a different inherited value |
| ConfigPrune.RestoredIff | tools/config_cli.py:247-257 | The same equivalence for one value, whether it was removed, kept, or pruned to nothing |
| ConfigPrune.PruneIdempotent | tools/config_cli.py:234-270 | Pruning twice equals pruning once, key order included |
| ConfigPrune.ListsArePrunedWhole | tools/config_cli.py:260-265 | A list is removed whole or kept whole; a concrete pair of lists that share an index shows that nothing is pruned by index |
| DocumentedPruning.PrunesAsDocumentedIff | tools/config_cli.py:234-270 | Against pruning as documented, lists taken apart by index at every depth: the code does the same if and only if no two different lists of one length, in the same place, share anything at an index, nor does the first hold anything empty there |
| DocumentedPruning.KeptWholeIff | tools/config_cli.py:237-241 | By the documentation a value stays whole, key order included, if and only if nothing in it, at any depth, is empty or equal to its counterpart |
| ConfigPrune.NormalFormUnique | tools/config_cli.py:234-270 | Two pruned configurations that merge onto the base to the same tree are the same configuration |
| ConfigPrune.NothingKeptIsRedundant | tools/config_cli.py:243-258 | Deleting any entry, at any depth, of a configuration that pruning leaves alone changes what merging it onto the base gives |
| ConfigPrune.PrunedIsMinimal | tools/config_cli.py:243-258 | What pruning returns is minimal in that sense, under plain merging onto the tree it was pruned against; what files mean is in `Minimality` |
| ConfigPrune.PrunedIsCanonical | tools/config_cli.py:234-270 | Any two children that merge onto the base to the same tree prune to the same form, whether or not pruning keeps that tree |
| ConfigTree.MergeWellFormed | tools/config_cli.py:99 | Merging keeps key lists free of repetitions and in step with the contents |
| ConfigCli.MergeWithOverride | tools/config_cli.py:86-100 | The loop that pops markers and overridden base keys computes: marked sections replace what they inherit, everything else merges |
| ConfigCli.LoadConfigWithInheritance | tools/config_cli.py:103-149 | Loading computes the expansion: parents folded left to right from an empty mapping, the file last, a file without `defaults` as it stands |
| Inheritance.ParentsInOrder | tools/config_cli.py:126-147 | Told by expansions alone: the last parent is merged over what the others make, and the file over that |
| Inheritance.WithoutParents | tools/config_cli.py:125-149 | A file without `defaults` is taken as it stands; one with an empty list loses its markers only |
| Inheritance.LaterParentWins | tools/config_cli.py:136-143 | Where neither the file nor a later parent speaks about a key, what a parent says there comes through: a scalar or list as it is, an overriding section without its marker, any other section at least |
| Inheritance.NothingFromNowhere | tools/config_cli.py:134-147 | A key that neither the file nor any parent speaks about is not in the expansion |
| Inheritance.OverridesIff | tools/config_cli.py:90-97 | A section overrides if and only if its marker is there and not null, false, zero or empty: then it stands alone without the marker, otherwise it is merged |
| ConfigCli.ExpansionIsUnmarked | tools/config_cli.py:90-97 | A file with `defaults` expands to a tree in which no top-level section still carries a true `_override_` marker |
| ConfigCli.PruneKeepsAllIff | tools/config_cli.py:234-270 | Pruning gives a section back unchanged if and only if no entry equals what it would inherit and no shared entry is empty |
| ConfigCli.AbsorbsIff | tools/config_cli.py:234-258 | Merging what pruning leaves of a section onto the inherited section gives the section alone, at every depth, if and only if it speaks about everything inherited and hides no different value behind an empty container |
| ConfigCli.OverridingSectionIff | tools/config_cli.py:92-97 | An overriding section means the same after pruning if and only if it shares nothing with the section it replaces; or, where pruning takes its marker because the inherited section has one too, if and only if it absorbs that section |
| ConfigCli.MarkedBaseSectionIff | tools/config_cli.py:92-97 | The same for a section that inherits from a marked one without being marked |
| ConfigCli.SectionIff | tools/config_cli.py:86-100 | For any section of the child, pruned against what a file says and merged onto what is inherited from that file: it means the same if and only if it is safe |
| ConfigCli.OverriddenPruneIff | tools/config_cli.py:86-100 | For any tree inherited from the file pruned against, merging the pruned child with override restores the child exactly when it is safe to minimise, section by section |
| ConfigCli.MinimizePreservesExpansionIff | tools/config_cli.py:350-422 | For every child and parent, expanding the minimised file equals expanding the original if and only if `SafeToMinimize` holds: an overriding section shares nothing with what it replaces (or absorbs it, if its marker is inherited), and elsewhere no empty container hides a different value |
| MinimizeCommand.OwnValuesSurvive | tools/config_cli.py:126-147 | A file's own values survive its own inheritance merge: a marked section comes through without its marker, any other carries at least what the file says |
| MinimizeCommand.RebasePreservesExpansionIff | tools/config_cli.py:371-414 | With `--base`, for every child and base: pruning against the raw, unexpanded base file gives the child merged onto the expanded base if and only if it is safe by the raw file, overriding sections included |
| MinimizeCommand.EnsureDefaultsRelative | tools/config_cli.py:273-308 | Afterwards the base is among the defaults, at the front unless it was named already; every name already there keeps its place, a single name is stored bare, and no other key, nor the key order, is touched |
| MinimizeCommand.DefaultsNamedOnce | tools/config_cli.py:292-308 | These conditions leave only one result, and naming the base again leaves that result alone |
| MinimizeCommand.MinimizeOne | tools/config_cli.py:350-422 | A file is written if and only if it and the base are mappings and, for the inferred base only, its `defaults` is one text; each failure has its exact cause; the file written has `defaults` as its first key, then what pruning leaves in its own order |
| MinimizeCommand.MinimizeCheckOne | tools/config_cli.py:500-591 | Exit code 0 exactly when minimising would write the file as it is, 2 exactly when file and base are not mappings or, for the inferred base, its `defaults` is no text, 1 otherwise |
| MinimizeCommand.MinimizedFileChecksClean | tools/config_cli.py:555-591 | What `minimize --in-place` writes is reported clean by `minimize-check` with the same base option |
| MinimizeCommand.InferredCheckCleanIff | tools/config_cli.py:523-591 | After `minimize --base`, a `minimize-check` that infers that base from the file reports it clean if and only if nothing left in it equals what the base inherits |
| MinimizeCommand.PlainBaseChecksClean | tools/config_cli.py:523-591 | For a base without `defaults` it always does |
| MinimizeCommand.MinimizedFileMeansIff | tools/config_cli.py:350-422 | The entries written, over the parent the file then names, expand like the entries before if and only if that was safe: for the inferred base this compares with the original file, for `--base` with the original already re-based; the `defaults` are the old ones or name the new base |
| MinimizeCommand.OverridingSectionIsUnsafe | tools/config_cli.py:92-97 | A concrete child whose overriding section loses an entry when minimised |
| MinimizeCommand.OverridingSectionIsUnsafeToRebase | tools/config_cli.py:371-414 | A concrete overriding child and a base with `defaults` of its own for which `--base` changes the expansion |
| MinimizeCommand.EmptyContainerIsUnsafe | tools/config_cli.py:253-255 | A concrete child whose empty list over a scalar is dropped, so that its expansion changes |
| Minimality.GivenIff | tools/config_cli.py:99 | Under plain merging, deleting an entry, at any depth, changes nothing if and only if the base has all the entry adds |
| Minimality.RedundantIff | tools/config_cli.py:86-100 | Under merging with override, exactly the redundant entries can be deleted: given ones in plain sections; an overriding section the same as what is inherited; its marker, if nothing is inherited there or merging gives the section anyway; what a marker can lose and stay true |
| Minimality.ExpansionNeedsIff | tools/config_cli.py:103-149 | So for the expansion of any file over any parent |
| Minimality.MinimizedNeedsIff | tools/config_cli.py:350-422 | What `minimize` writes for the inferred base: every entry of a section that is not overriding is needed, at every depth; in an overriding one exactly the redundant entries just named are not |
| Minimality.EmptyOverrideIff | tools/config_cli.py:92-97 | There a whole overriding section is redundant only if it is empty but for its marker and stands over an empty mapping |
| Minimality.RebasedNeedsIff | tools/config_cli.py:371-414 | What `minimize --base` writes: an entry can go without changing the expansion if and only if it is redundant over the expanded base, and the raw base never is what gives it |
| Minimality.MinimizedIsCanonical | tools/config_cli.py:350-422 | Files without overriding sections that expand alike over the same parent, whatever markers that has, are minimised to the same file |
| Minimality.MarkerCanBeRedundant | tools/config_cli.py:92-97 | A concrete overriding child, safe to minimise and left as it is, whose marker is redundant, so that the file without it is another minimised form |
| Minimality.RebasedKeepsInherited | tools/config_cli.py:371-414 | A concrete base with `defaults` of its own and a child for which `--base` keeps an entry that the base inherits |
| JsonFinder.CloseIsObjectAt | examples/custom_rewards/rlhf_reward.py:69-93 | From an opening brace, depth counting stops at an end exactly when the text up to it is one object of the grammar, strings with braces, quotes and escapes included |
| JsonFinder.ObjectAtUnique | examples/custom_rewards/rlhf_reward.py:86-93 | No object text is a proper prefix of another, so a span found is the only one from its start |
| JsonFinder.FoundIsLeftmost | examples/custom_rewards/rlhf_reward.py:63-95 | On any text the results are the leftmost objects, each searched for after the previous one |
| JsonFinder.FindJsonObjects | examples/custom_rewards/rlhf_reward.py:63-95 | The nested index loops compute exactly those spans, and end |
| JsonFinder.FinderInvertsPrinter | examples/custom_rewards/rlhf_reward.py:63-95 | For brace-free gaps around any number of printed objects the finder returns exactly these objects, in order |
| JsonTexts.JsonObjectIsFound | examples/custom_rewards/rlhf_reward.py:63-95 | Every object of RFC 8259, with any whitespace, is an object of the finder's grammar, and from between brace-free texts exactly it comes back |
| GenrmJudge.ParseGenrmOutput | examples/custom_rewards/rlhf_reward.py:126-149 | The first valid object in fenced blocks, else the last valid object of the whole answer, else the neutral verdict |
| GenrmJudge.RewardOrdersVerdicts | examples/custom_rewards/rlhf_reward.py:152-162 | Rewards lie in [0, 1]; within the score ranges the reward orders verdicts strictly by score, and ties strictly by ranking around 3.5 |
| GenrmJudge.RewardMovesByNinths | examples/custom_rewards/rlhf_reward.py:152-162 | Within the ranges the reward moves by a ninth for each point of score and, on a tie, of ranking; the neutral verdict earns one half; one and zero are earned by the best and the worst tie only |
| BoxedAnswer.ParseFinalBoxed | examples/custom_rewards/format_reward.py:11-46 | The scan returns the content the last marker opens up to its matching brace, escapes skipped, or nothing |
| BoxedAnswer.ParseAnswer | examples/custom_rewards/format_reward.py:74-125 | The same for any signal, opener and closer, with the documented results for empty ones |
| AnswerSettings.AlwaysEmptyIff | examples/custom_rewards/format_reward.py:74-125 | With a signal and a closer given, every answer comes out empty if and only if the closer is no single character, is the opener, or is itself the marker |
| AnswerSettings.WithoutSignalOrCloser | examples/custom_rewards/format_reward.py:92-107 | Without a signal the whole answer comes back; without a closer everything behind the last marker; without a marker nothing |
| BoxedAnswer.ExtractedIsContent | examples/custom_rewards/format_reward.py:26-44 | For every balanced, escape-aware content behind the last marker, exactly that content comes back |
| BoxedAnswer.ExtractedOnlyContent | examples/custom_rewards/format_reward.py:26-44 | Conversely a non-empty result is such content of a closed last block |
| BoxedAnswer.BoxedContentComesBack | examples/custom_rewards/format_reward.py:20-44 | Parsing prefix, marker, content, brace, suffix gives the content if neither content nor suffix holds a later marker |
| BoxedAnswer.DefaultsAgree | examples/custom_rewards/format_reward.py:74-125 | With default arguments `parse_answer` agrees with `parse_final_boxed` on every string |
| BoxedAnswer.LastBoxedOnlyString | examples/custom_rewards/mcq_dapo.py:38-65 | The loop returns the last boxed expression up to the brace a plain counter closes it at |
| BoxedAnswer.FoundBoxStrips | examples/custom_rewards/mcq_dapo.py:68-80 | What it finds always satisfies both assertions of `remove_boxed` |
| BoxedAnswer.ClosedBoxAgreesIff | examples/custom_rewards/mcq_dapo.py:38-80 | For a closed box, stripping the found box gives what the escape-aware parser gives if and only if the content balances when every brace counts, escaped or not |
| BoxedAnswer.ExtractorsAgreeIff | examples/custom_rewards/mcq_dapo.py:38-80 | On every answer the two agree if and only if the last box is closed and its content balances that way |
| BoxedAnswer.ExtractorsAgree | examples/custom_rewards/mcq_dapo.py:38-80 | In particular on every closed last box in which no escape hides a brace |
| BoxedAnswer.HiddenBraceDisagrees | examples/custom_rewards/mcq_dapo.py:55-65 | A concrete answer with an escaped brace on which the two disagree |
| FormatCheck.VerifyFormat | examples/custom_rewards/format_reward.py:49-71 | The issues, the verdict and the extracted answer of the first verifier |
| FormatCheck.VerifyThinkFormat | examples/custom_rewards/format_reward.py:128-160 | The issues, the verdict and the extracted answer of the second verifier, for any signal, opener and closer |
| FormatCheck.NotOnePairIff | examples/custom_rewards/format_reward.py:54-58 | The missing pair of tags is reported, and then alone, unless each tag occurs exactly once |
| FormatCheck.IssuesAre | examples/custom_rewards/format_reward.py:59-65 | Otherwise exactly these are reported: the closing tag before the opening one, and no wrapper far enough behind the closing one, unless exempt |
| FormatCheck.ThinkAcceptedIff | examples/custom_rewards/format_reward.py:139-154 | It accepts exactly the responses with one ordered pair of tags and `signal + opener` begun after it, for any signal and opener; only the signal `</think>` asks for no wrapper |
| FormatCheck.ThinkEdgeCases | examples/custom_rewards/format_reward.py:149-154 | A wrapper that reads `</think>` without being the signal is never accepted; an empty wrapper is accepted with any ordered pair of tags |
| FormatCheck.AnswerGivenIff | examples/custom_rewards/format_reward.py:159 | Asked to extract, it gives the answer if and only if it rejects the response or there is no answer to give |
| FormatCheck.AcceptedAnswerIsLost | examples/custom_rewards/format_reward.py:159 | A concrete accepted response whose boxed answer is not given |
| FormatCheck.AcceptedIff | examples/custom_rewards/format_reward.py:54-65 | A response passes if and only if it is one ordered pair of tags with no other tag and the last wrapper starts far enough behind the closing tag's start |
| FormatCheck.WrapperStartsAfterIff | examples/custom_rewards/format_reward.py:149-154 | With offset 8 this is: the wrapper occurs in the text after the closing tag |
| FormatCheck.OffsetsDisagreeIff | examples/custom_rewards/format_reward.py:64-65 | Offsets 7 and 8 differ on a response exactly when the last wrapper starts at the closing tag's last character; 8 never accepts more |
| FormatCheck.VerifiersAgreeOnBoxed | examples/custom_rewards/format_reward.py:49-160 | For `\boxed{` both verifiers accept the same responses: those with one ordered pair of tags and a box begun behind it |
| FormatCheck.OffsetMatters | examples/custom_rewards/format_reward.py:64-65 | A concrete wrapper and response that pass one offset and not the other |
| Text.CountOneIff | examples/custom_rewards/format_reward.py:54-57 | A non-overlapping count is one exactly when there is one occurrence |
| Gae.ComputeGae | nemo_rl/algorithms/advantage_estimator.py:461-511 | The backward loop yields, at each position, the accumulator `Loop` and that plus the value |
| Gae.CarryIsTextbook | nemo_rl/algorithms/advantage_estimator.py:495-505 | On a 0/1 mask the carried accumulator of any row equals textbook GAE of the row with masked positions deleted, and the carried value is that row's first value |
| Gae.MaskedEntriesNeverMatter | nemo_rl/algorithms/advantage_estimator.py:501-505 | Rows that differ only at masked positions have the same accumulators everywhere |
| Gae.MaskedPositionCarries | nemo_rl/algorithms/advantage_estimator.py:501-507 | At a masked position the accumulator is that of the next valid one, or zero if none follows |
| Gae.TextbookTelescopes | nemo_rl/algorithms/advantage_estimator.py:495-499 | With lambda 1 and any gamma, advantage plus value is the discounted sum of rewards |
| Gae.ReturnIsDiscountedRewards | nemo_rl/algorithms/advantage_estimator.py:495-511 | With lambda 1 the return at a valid token is the discounted sum of rewards over it and later valid tokens |
| Gae.FirstMaximum | nemo_rl/algorithms/advantage_estimator.py:364 | The index of the first largest entry, which on a reversed mask is the last valid position |
| Gae.BuildTokenLevelRewards | nemo_rl/algorithms/advantage_estimator.py:323-373 | KL penalty at valid tokens when configured, terminal reward at the last valid token only, zero at masked ones |
| EstimatorLaws.PenaltyAtTokens | nemo_rl/algorithms/advantage_estimator.py:350-372 | A positive coefficient takes its share of the divergence away from every valid token; masked tokens have no reward; no other coefficient does anything |
| EstimatorLaws.ReturnPaysForDivergence | nemo_rl/algorithms/advantage_estimator.py:323-373 | With lambda 1 the return at a valid token is the discounted terminal reward less the coefficient times the discounted divergence over it and the later valid tokens |
| EstimatorLaws.AdvantageMonotone | nemo_rl/algorithms/advantage_estimator.py:461-511 | No advantage falls when rewards at valid tokens rise |
| EstimatorLaws.MoreDivergenceNeverPays | nemo_rl/algorithms/advantage_estimator.py:350-358 | So no advantage, and no return, rises when divergences rise, for any lambda |
| EstimatorLaws.LambdaMixes | nemo_rl/algorithms/advantage_estimator.py:495-511 | For any lambda the return at a valid token is its reward and, discounted, the next valid token's value and return mixed in the proportion of lambda |
| Gae.ReturnIsDiscountedTerminal | nemo_rl/algorithms/advantage_estimator.py:359-373 | With lambda 1, terminal reward R and no KL, the return is gamma to the power k times R, where k counts the valid tokens strictly later |
| Gae.AdaptiveLambda | nemo_rl/algorithms/advantage_estimator.py:375-386 | The length-adaptive lambda stays in [0, 1), never falls as responses grow, and has its closed form from a scaled length of one on, zero before that |
| EstimatorLaws.LambdasAreIndependent | nemo_rl/algorithms/advantage_estimator.py:375-395 | Without length adaptation each override governs its own pass and leaves the other alone; without overrides, or with equal ones, both passes have one lambda |
| EstimatorLaws.ResponseLength | nemo_rl/algorithms/advantage_estimator.py:381-382 | The length it adapts to is the sum of the mask |
| Gae.ComputeAdvantage | nemo_rl/algorithms/advantage_estimator.py:397-459 | For one sample, coupled or decoupled: advantages use the policy lambda and returns the value lambda, and masked advantages are zero |
| Whitening.Whiten | nemo_rl/algorithms/advantage_estimator.py:308-321 | Mean, unbiased variance and whitened advantages of a batch, zero at masked positions, without a value for a single valid token |
| Whitening.ComputeAdvantages | nemo_rl/algorithms/advantage_estimator.py:419-459 | The estimator on a batch, with and without whitening; returns are never whitened |
| Whitening.MaskedEntriesDoNotCount | nemo_rl/algorithms/advantage_estimator.py:314-317 | What stands at masked positions influences no whitened advantage |
| Whitening.WhiteningKeepsOrder | nemo_rl/algorithms/advantage_estimator.py:314-317 | With two or more valid tokens, whitening keeps the strict order of advantages across the batch |
| WhitenedMoments.TotalsAreOfTokens | nemo_rl/algorithms/advantage_estimator.py:314-315 | The masked sum and the count are those of the valid tokens laid out in one row |
| WhitenedMoments.MomentsAreOfTokens | nemo_rl/algorithms/advantage_estimator.py:314-315 | Mean and unbiased variance by these tokens, with the small constant in the divisors |
| WhitenedMoments.WhitenedIsCentred | nemo_rl/algorithms/advantage_estimator.py:317 | The whitened tokens add up to zero, up to that constant times mean and slope |
| WhitenedMoments.WhitenedHasUnitVariance | nemo_rl/algorithms/advantage_estimator.py:317 | Their squares are the squared deviations times the slope's square, and with the true inverse square root their unbiased variance is one, up to the constants |
| WhitenedMoments.ZeroWhereMasked | nemo_rl/algorithms/advantage_estimator.py:446-459 | Tokens that are not valid have no advantage afterwards |
| DynamicSampling.ApplyDynamicSampling | nemo_rl/algorithms/grpo_sync.py:124-223 | The decision, pending rows, training rows and logged rewards of one iteration, and exactly which keys leave the store |
| DynamicSampling.KeysAfter | nemo_rl/algorithms/grpo_sync.py:180-223 | The key algebra of an iteration: what stays alive is what stays pending or is trained, plus what earlier epochs left behind |
| DynamicSampling.SyncSampler.Iterate | nemo_rl/algorithms/grpo_sync.py:710-754 | From the run invariant, one batch takes the specified decision and leaves exactly the pending keys alive, or exactly the trained ones |
| DynamicSampling.SyncSampler.FinishStep | nemo_rl/algorithms/grpo_sync.py:954 | After a step none of its keys is left, and the batch counter starts over |
| DynamicSampling.SyncSampler.RunEpoch | nemo_rl/algorithms/grpo_sync.py:541-754 | Over any sequence of batches with new keys, the events are those of the plain specification that looks at all rows since the last training; what is left pending at the end, and so alive, are the survivors since then |
| DynamicSampling.SyncSampler.StartEpoch | nemo_rl/algorithms/grpo_sync.py:536-539 | A new epoch drops the pending reference without discarding: precisely the pending survivors' keys stay behind in the store |
| SamplingEpochs.RunEpochs | nemo_rl/algorithms/grpo_sync.py:525-754 | After a run over any epochs that does not fail, the store holds exactly the survivors the epochs left over; it fails exactly when a batch raises |
| SamplingEpochs.StoreEmptyIff | nemo_rl/algorithms/grpo_sync.py:536-539 | The store is then empty if and only if no epoch leaves a survivor after its last training step |
| SamplingEpochs.StoreCanKeepKeys | nemo_rl/algorithms/grpo_sync.py:199-207 | A concrete epoch that leaves a key in the store |
| LegacySampling.DynamicSamplingStep | nemo_rl/algorithms/grpo.py:1257-1383 | The in-memory step: its decision, and a cache that a batch without survivors leaves alone |
| LegacySampling.RunEpoch | nemo_rl/algorithms/grpo.py:2232-2326 | The epoch loop around it computes its run |
| SamplingMeaning.RunIsMeant | nemo_rl/algorithms/grpo.py:1309-1376 | A run is the specification's if and only if each batch has the right event: training on exactly the first rows with spread since the last step as soon as there are enough, logging the first rewards of all of them, failing after more batches than allowed |
| SamplingMeaning.SurvivorsInOrder | nemo_rl/algorithms/grpo.py:1311-1320 | The rows kept are exactly those with spread, in the order they were generated |
| SamplingRefinement.StepAgrees | nemo_rl/algorithms/grpo.py:1332-1376 | While the carried cache is the survivors so far and fewer than the training size, the step decides as the specification does and keeps that invariant |
| SamplingRefinement.BothFormsAgree | nemo_rl/algorithms/grpo.py:1309-1383 | Over every epoch both forms continue, train and fail at the same batches on the same rows; if every batch is heard in time they log the same rewards, and it is enough that each keeps a row |
| SamplingRefinement.LogsAgreeIff | nemo_rl/algorithms/grpo.py:1326-1342 | With distinct keys, the two forms log the same rewards whatever the rewards are if and only if, in each training step, every non-empty batch without survivors comes only after the rows to log |
| SamplingRefinement.SameLogMeansHeard | nemo_rl/algorithms/grpo.py:1326-1342 | Within one step: if no two rows have the same reward, equal logs mean that every batch was heard in time |
| SamplingRefinement.LogsDifferWithoutSurvivors | nemo_rl/algorithms/grpo.py:1326-1342 | A concrete epoch on which the logged rewards differ |
| LegacySampling.SurvivorsOfGroups | nemo_rl/algorithms/grpo.py:1311-1320 | With one spread per prompt group, filtering rows is filtering groups |
| LegacySampling.TrainsOnWholeGroups | nemo_rl/algorithms/grpo.py:1296-1299 | Then every training step of every epoch is exactly `num_prompts_per_step` whole groups, all with spread |
| TrainingLoop.PerformStep | nemo_rl/algorithms/grpo.py:2750-2755 | The flag and the checkpoint of one step, from the loop's own counters, are those of step number `total` of the ideal run |
| TrainingLoop.Train | nemo_rl/algorithms/grpo.py:2228-3137 | From any startable state the loop performs the remaining steps in order, each once; only a time-out ends it early, right after its checkpointed step |
| TrainingLoop.FreshRun | nemo_rl/algorithms/distillation.py:572-576 | Without a time limit a fresh run performs exactly `min(max_num_steps, max_num_epochs * len(dataloader))` steps, the scheduler's `train_iters` (in DPO half of it), and `is_last_step` holds on the final step and on no other; step i is on batch i of the epochs laid end to end, and is saved exactly when last or periodic |
| TrainingLoop.CheckpointsStart | nemo_rl/algorithms/dpo.py:655-661 | Every checkpoint ever written is a state to start from, DPO's wrapped step at the end of an epoch included |
| TrainingLoop.InterruptAndResume | nemo_rl/algorithms/grpo.py:2880-2891 | Stopping at a time-out checkpoint and resuming performs, step for step, what the uninterrupted run performs |
| TrainingLoop.ResumeFrom | nemo_rl/algorithms/dpo.py:573-797 | Resuming from any checkpoint of the uninterrupted run performs exactly the rest of it, no step lost and none repeated |
| SampledTraining.Run | nemo_rl/algorithms/grpo.py:2228-3137 | The loop under dynamic sampling, where `current_step` counts trained steps and the dataloader counts batches, from a fresh or saved state: it performs the steps that remain, in order, stops early only right after a step at which the time is up, and leaves the newest checkpoint |
| SampledTraining.StepCount | nemo_rl/algorithms/grpo.py:2228-3137 | From any state it performs one step for each batch that completes one, until `max_num_steps` |
| SampledTraining.ResumeIsRest | nemo_rl/algorithms/grpo.py:2888-2891 | From the checkpoint after any of its steps a run goes on with exactly the steps after it |
| SampledTraining.InterruptAndResume | nemo_rl/algorithms/grpo.py:2880-2891 | What was done up to the newest checkpoint and what is done from it make up the uninterrupted run; after a time-out nothing is done twice |
| SampledTraining.FinalStepFlaggedIff | nemo_rl/algorithms/grpo.py:2750-2755 | A fresh run performs the smaller of `max_num_steps` and the number of batches that complete a step; no step but the final one is flagged, and that one exactly if that number reaches `max_num_steps` or every batch of the last epoch completes a step |
| SampledTraining.FlagsFrom | nemo_rl/algorithms/grpo.py:2750-2755 | The same for a resumed run: the step counter counts the epoch's trained steps after every step, and only a final step is flagged |
| SampledTraining.StepsInOrder | nemo_rl/algorithms/grpo.py:2228-2326 | Each step is made by a batch that completes one, in the order of the batches with none left out, and is due to be saved exactly when last or periodic |
| SampledTraining.LostWorkIsBounded | nemo_rl/algorithms/grpo.py:2873-2891 | However a run is cut off, fewer steps than the save period lie behind its newest checkpoint |
| SampledTraining.SkippedBatchMissesTheFlag | nemo_rl/algorithms/grpo.py:2750-2755 | A concrete run whose final step is neither flagged nor saved |
| SampledTraining.TrainFromStream | nemo_rl/algorithms/grpo.py:2221-2228 | With several dataloaders, an endless stream, however many batches are drawn from it and whichever complete a step: one step for each that does until `max_num_steps`, from any state, and the final one alone is flagged |
| Freshness.Prepare | nemo_rl/algorithms/grpo.py:2288-2318 | The refit block: afterwards generation holds the current policy whenever refits are needed |
| Freshness.TrainPolicy | nemo_rl/algorithms/grpo.py:2724-2748 | Training makes a new version, marks generation stale and recalibrates KV scales on it |
| Freshness.RunEpoch | nemo_rl/algorithms/grpo.py:2237-2790 | An epoch of the loop, refits left out, does what the run with always-current generation does |
| Freshness.Run | nemo_rl/algorithms/grpo.py:2156-2790 | Over whole runs: rollouts and validations use the current policy, a training batch merges rollouts of one version and trains that version, with scales to sync every refit but the one before an initial validation is given those of its version, and without none is given any, no version is refitted twice, and none at all when refits are not needed |
| Freshness.IdealRunIsCurrent | nemo_rl/algorithms/grpo_sync.py:576-620 | The always-current run is current in each of its events |
| EpochAccounts.EpochAccount | nemo_rl/algorithms/grpo.py:2237-3130 | An epoch of it: every batch up to the one that ends the run is rolled out, those that complete a step are trained on, each training batch merging all rollouts since the one before and making one version, and those due are validated |
| Nucleus.MaskedFill | nemo_rl/algorithms/logits_sampling_utils.py:184-192 | In place: exactly the unmasked entries become minus infinity |
| Nucleus.CumulativeMask | nemo_rl/algorithms/logits_sampling_utils.py:186-191 | The running sum of probabilities marks exactly the sorted positions where the mass so far exceeds `1 - top_p`, and the last position always |
| Nucleus.Scatter | nemo_rl/algorithms/logits_sampling_utils.py:194-200 | Scattering through the sort order undoes the sort |
| Nucleus.FilterRow | nemo_rl/algorithms/logits_sampling_utils.py:168-200 | One row through sort, thresholds and scatter: a logit survives exactly where the mask is true and is minus infinity elsewhere |
| Nucleus.TopPIsSuffix | nemo_rl/algorithms/logits_sampling_utils.py:187-191 | On a sorted row top-p keeps a suffix, from the first position that passes |
| Nucleus.TopKCollapse | nemo_rl/algorithms/logits_sampling_utils.py:172-200 | For 0 < p < 1 the conjunction of both masks is the top-p mask computed after top-k |
| Nucleus.RowMaskIsNucleus | nemo_rl/algorithms/logits_sampling_utils.py:150-210 | In original token order and for every tie order: the kept set is a top segment, has mass at least p, no set with that mass is smaller, and at least one token is kept |
| Nucleus.NucleusIsTight | nemo_rl/algorithms/logits_sampling_utils.py:187-191 | Dropping any one kept token, so also the smallest, leaves mass below p |
| LogitFilter.RowMaskIsTopKNucleus | nemo_rl/algorithms/logits_sampling_utils.py:150-210 | Both filters at once: the mask is a nucleus of the row after top-k, whose threshold is the k-th largest logit; no `top_k`, or one that is not positive, takes nothing out |
| LogitFilter.TieOrderKeepsTheCount | nemo_rl/algorithms/logits_sampling_utils.py:168-200 | However the sort orders ties, the same top-k threshold applies and equally many tokens are kept |
| LogitFilter.SelectedIsKth | nemo_rl/algorithms/logits_sampling_utils.py:98-99 | The last of the selected top-k values is the k-th largest: at least k reach it, fewer than k exceed it |
| LogitFilter.TopKOnlyMatchesSort | nemo_rl/algorithms/logits_sampling_utils.py:96-108 | The sort-free path has the mask of the sorted threshold |
| LogitFilter.TopKCount | nemo_rl/algorithms/logits_sampling_utils.py:96-108 | It keeps at least k tokens, and exactly k if and only if the next one does not tie |
| LogitFilter.TopKIdempotent | nemo_rl/algorithms/logits_sampling_utils.py:96-108 | Filtering its own result again changes neither logits nor mask |
| LogitFilter.ApplyTopKOnly | nemo_rl/algorithms/logits_sampling_utils.py:70-108 | Masks and logits of the top-k-only path, unchanged logits without a mask when it is off, an error exactly when k exceeds the vocabulary |
| LogitFilter.ApplyTopKTopP | nemo_rl/algorithms/logits_sampling_utils.py:112-210 | For every chunk size of at least one the result is the row-by-row one; it fails exactly for a chunk of zero or a k beyond the vocabulary |
| LogitFilter.TopKTopPFunction.Forward | nemo_rl/algorithms/logits_sampling_utils.py:217-239 | The forward pass saves the mask of the outcome it returns |
| LogitFilter.TopKTopPFunction.Backward | nemo_rl/algorithms/logits_sampling_utils.py:242-251 | At every finite logit the gradient passes if the forward pass let that logit through, and is zero if it filtered it |
| Permutations.PermutedSum | nemo_rl/algorithms/logits_sampling_utils.py:195-200 | A sum over a row does not change when the row is permuted |
| Permutations.TopIsLargest | nemo_rl/algorithms/logits_sampling_utils.py:187-191 | Of all sets of that size the top ones of a sorted row have the largest sum |
| SequenceMasking.RowError | nemo_rl/algorithms/grpo.py:2025-2044 | The token loops compute a sequence's multiplicative error and whether it counts |
| SequenceMasking.Summarize | nemo_rl/algorithms/grpo.py:2046-2049 | Largest, mean and smallest in one pass |
| SequenceMasking.ComputeAndApplySeqLogprobErrorMasking | nemo_rl/algorithms/grpo.py:1996-2123 | The sample mask is replaced by the passing one, or kept without a threshold, and all reported metrics are those of the old mask |
| SequenceMasking.ValidErrorAtLeastOne | nemo_rl/algorithms/grpo.py:2035-2044 | On 0/1 masks each sequence that counts has an error of at least one |
| SequenceMasking.ErrorIsMeanFactor | nemo_rl/algorithms/grpo.py:2030-2044 | The error of a sequence is the mean of `exp` of the log-probability distance over its tokens that count, the first column left out, and is measured if and only if there is one |
| SequenceMasking.ErrorLiesWithin | nemo_rl/algorithms/grpo.py:2030-2044 | So it lies between the factors of its tokens, and is exactly one if all their log-probabilities agree, whatever its length |
| SequenceMasking.MetricsInRange | nemo_rl/algorithms/grpo.py:2046-2098 | `1 <= min <= mean <= max` before and after masking unless nothing counts, and the largest error left is within the threshold |
| SequenceMasking.MaskedIsCounted | nemo_rl/algorithms/grpo.py:2077-2078 | On 0/1 masks the reported number is the number of sequences taken out |
| SequenceMasking.MaskedCorrectShare | nemo_rl/algorithms/grpo.py:2077-2090 | The reported share is that of correctly answered sequences among those taken out |
| SequenceMasking.MaskingIsProjection | nemo_rl/algorithms/grpo.py:2021-2123 | For any masks and threshold, a second run on its own output masks nothing, changes nothing, and reports the first run's after-mask statistics |
| MessageMasks.AddTokenLossMasks | nemo_rl/algorithms/grpo.py:1465-1493 | Each message, in place, gets its loss mask and missing log-probabilities, and nothing else changes |
| MessageMasks.MarkingTwiceIff | nemo_rl/algorithms/grpo.py:1485-1493 | Marking again changes a message if and only if it is a prompt's assistant message with tokens, which then passes for a generated one |
| MessageMasks.MarkedLogprobs | nemo_rl/algorithms/grpo.py:1489-1493 | Missing log-probabilities become one zero for each token, others are kept, and nothing else of the message changes |
| MessageMasks.CoveringAt | nemo_rl/algorithms/grpo.py:1565-1606 | The running offset of a message is where its tokens are in the row |
| MessageMasks.LossMaskAt | nemo_rl/algorithms/grpo.py:1480-1493 | In the concatenated masks a token trains exactly when its message was generated |
| SpanPenalties.Tensor.Clone | nemo_rl/algorithms/grpo.py:1585-1590 | The copy has the same entries in storage of its own, no two positions sharing a cell, whatever the strides of the original |
| SpanPenalties.PenaliseMessage | nemo_rl/algorithms/grpo.py:1592-1605 | `add_` and `clamp_` on a span, clipped at the row's end, for each flag in turn; all other positions keep their value |
| SpanPenalties.ApplyPenalties | nemo_rl/algorithms/grpo.py:1518-1623 | Every advantage becomes what its covering message prescribes; the input storage is never written and is replaced by a fresh copy exactly when a message is flagged; the reported counts and rates |
| SpanPenalties.OnlyFlaggedTokensChange | nemo_rl/algorithms/grpo.py:1585-1606 | Tokens outside flagged generated messages, padding included, keep their advantage |
| SpanPenalties.SinglyFlagged | nemo_rl/algorithms/grpo.py:1592-1605 | One flag gives `min(adv + p, p)`, which is `p` itself exactly where the advantage was not negative |
| SpanPenalties.NegativeAdvantageIsNotOverwritten | nemo_rl/algorithms/grpo.py:1598 | A concrete negative advantage that ends below the configured value |
| SpanPenalties.DoublyFlagged | nemo_rl/algorithms/grpo.py:1592-1605 | Two flags with penalties that are not positive add up |
| SpanPenalties.TallyCounts | nemo_rl/algorithms/grpo.py:1561-1602 | Each reported count is the number of generated assistant messages, or of those with its flag where a penalty is configured |
| SpanPenalties.RatesAreShares | nemo_rl/algorithms/grpo.py:1608-1609 | The rates are these counts per generated message and lie in [0, 1] |
| SpanPenalties.PenalisedTokensTrainIff | nemo_rl/algorithms/grpo.py:1570-1590 | After mask building, all penalised tokens have loss mask one if and only if flags with tokens sit on generated messages only |
| CyclicSampler.ConsistentNext | examples/custom_dataloader/custom_dataloader.py:47-51 | Drawing a batch, with a restart when the iterator is exhausted, extends the prefix of the repeated dataloader by its next batch |
| CyclicSampler.Samplers.Draw | examples/custom_dataloader/custom_dataloader.py:92-98 | One draw: the next batch of the repeated dataloader, none exactly when the dataloader is empty, other tasks untouched |
| CyclicSampler.Samplers.SampleEach | examples/custom_dataloader/custom_dataloader.py:44-55 | One batch of each task in order, unless some dataloader is empty; over any calls all draws stay prefixes of the repeated dataloaders |
| CyclicSampler.Samplers.SampleChosen | examples/custom_dataloader/custom_dataloader.py:86-104 | The round over chosen tasks ends with the shortest run of draws that reaches the expected prompts, each the next batch of its task; it raises exactly if a bad task comes up before that, and by the first one |
| CyclicSampler.ChosenSlotsShareFairly | examples/custom_dataloader/custom_dataloader.py:90-100 | A call overshoots by less than its last batch, and any two slots of the round differ by at most one draw, whatever tasks they name |
| CyclicSampler.TaskShare | examples/custom_dataloader/custom_dataloader.py:88-100 | How much a task gives, exactly, however often the list names it: its multiplicity for each full round and its multiplicity in the part begun |

## Left out

- YAML text, `${...}` interpolation and `???` values, paths, and turning non-string `defaults` entries into strings: trees arrive loaded and parents located; only equality of names matters.
- `compare`, `_flatten`, the cache of expanded bases, and running over several files: they would only add easy members.
- `normalize_final_answer`, `is_correct_minerva`, string stripping and case folding around the extractors, `json.loads` and the fenced-block search: library behaviour.
- GenrmJudge.ParseGenrmOutput: fenced blocks arrive already found, because the search for them is a regular expression.
- Gae.ComputeAdvantage: takes the KL estimate as given.
- Whitening.Whiten: the inverse square root is any function that is positive on positive numbers.
- TrainingLoop.Train: every batch makes a step and epochs end; dynamic sampling and several dataloaders are in `SampledTraining`.
- SampledTraining.TrainFromStream: a finite number of drawn batches is looked at, without a time limit, since a stream in which no batch completes a step never ends.
- Freshness.Run: when dynamic sampling has enough rows, when validation is due and when a run stops are inputs, so the result holds for every such schedule; resuming starts a run at a later version with generation stale.
- DynamicSampling.SyncSampler.RunEpoch: keys of new batches are assumed not to be in use; metrics about discarded rows are not modelled.
- LegacySampling.DynamicSamplingStep: baselines, standard deviations from unshaped rewards and metrics are not modelled; the list of unfiltered rewards is a value, so that its being shared with the caller is not captured.
- LogitFilter.ApplyTopKTopP: the tensor is a sequence of rows, its outputs are filled row by row within a chunk; negative chunk sizes, for which the original returns uninitialised memory, are excluded.
- SpanPenalties.Tensor.Clone: the copy is always laid out densely; the original may keep the strides of a tensor that shares nothing.
- SpanPenalties.ApplyPenalties: messages are read as values, since only their advantages change.
- MessageMasks.AddTokenLossMasks: messages are separate objects, as the deep copies made for repeated prompts are.
- CyclicSampler.Samplers.SampleEach: a dataloader gives the same batches in each pass, so reshuffling is not modelled; merging batches into one is left as their list.
- CyclicSampler.Samplers.SampleChosen: dataloaders yield no empty batches, without which the round need not end.
- Floating-point rounding, NaN, Ray actors, workers, loggers, timers, checkpoint files and weight transfer: not part of this model.
