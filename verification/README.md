# torchrl core in Dafny

This project models a selection of torchrl's data and module logic as pure Dafny functions, and proves properties about it:

- `split_trajectories` turns a rollout tagged with trajectory ids into a zero-padded, masked table of trajectories.
- `_make_collector` spreads environment constructors over collectors.
- The RLHF rollout helper moves token padding and slices generated tokens into a rollout.
- The Minari dataset reader renames keys, picks between downloading, splitting and loading, converts stored space descriptions into specs, and lays the episodes out in one table.
- The one-hot and masked categorical distributions select, mask and re-index categories.
- The Q-value hook and actors encode Q-values as one-hot actions and wire fixed keys.
- `LSTMModule` and `GRUModule` validate their keys and pad their hidden states.

Tensors are sequences of rows, and one batch row stands for a batch wherever rows do not interact. A raised Python exception is modelled as `Err(kind)`, where `kind` names the exception class (module `Wrappers`). Module `Seqs` holds the sequence vocabulary shared by every module: sums, repetition, flattening, counting, masked selection and chunking. The model's modules follow the repository's files:

| module | file |
|---|---|
| `Trajectories` | torchrl/collectors/utils.py |
| `CollectorHelpers` | torchrl/collectors/helpers.py |
| `RlhfTokens` | torchrl/data/rlhf/utils.py |
| `MinariData` | torchrl/data/datasets/minari_data.py |
| `Discrete` | torchrl/modules/distributions/discrete.py |
| `Actors` | torchrl/modules/probabilistic_operators/actors.py |
| `Rnn` | torchrl/modules/tensordict_module/rnn.py |

## Model

| member | source | states |
|---|---|---|
| Trajectories.LeadRun | torchrl/collectors/utils.py:42 | the leading run of equal ids is nonempty, holds only the first id, and stops where the id changes |
| Trajectories.Splits | torchrl/collectors/utils.py:41-42 | there is one count per id of `unique_consecutive` |
| Trajectories.RunLengths | torchrl/collectors/utils.py:41-42 | one positive length per consecutive-unique id, and the lengths add up to the number of transitions |
| Trajectories.SplitsAreRunLengths | torchrl/collectors/utils.py:41-42 | when every id occupies one contiguous run, counting each id over the whole rollout gives exactly the run lengths |
| Trajectories.RunsAreMaximal | torchrl/collectors/utils.py:41-42 | each run is a block of copies of one id, and neighbouring runs carry different ids |
| Trajectories.SplitBy | torchrl/collectors/utils.py:61 | `split(lens)` cuts consecutive pieces of the given lengths whose concatenation is the input |
| Trajectories.MaxLen | torchrl/collectors/utils.py:82 | `max(*lens)` bounds every length and is one of them |
| Trajectories.PadStack | torchrl/collectors/utils.py:82-83 | every row starts with its piece, is padded with zeros to the longest piece, and the mask marks exactly the piece's positions |
| Trajectories.PadStackUnmask | torchrl/collectors/utils.py:66-83 | reading the padded table back through its mask gives the concatenated pieces, and the mask counts them |
| Trajectories.FastPathUnmask | torchrl/collectors/utils.py:44-55 | the shortcut keeps the content, adds an all-true mask, and reads back to the original transitions |
| Trajectories.Split | torchrl/collectors/utils.py:29-87 | on success the table reads back through its mask to the input transitions, whichever path is taken; off the shortcut it fails exactly when the counts do not cover the rollout, there is a single count, or the rollout has no `done` entry; no count, or a single count with `done` present, is a TypeError (`max` of fewer than two integers), and a missing `done` with at least one count is a KeyError |
| Trajectories.FastFlatIsOneRun | torchrl/collectors/utils.py:44-55 | on a 1-D rollout the shortcut gives the same table as padding its single run |
| Trajectories.FastBatchedIsRows | torchrl/collectors/utils.py:44-55 | on a 2-D rollout the shortcut is taken only when every row is one run, and it gives the same table as padding the runs |
| Trajectories.SplitFollowsRuns | torchrl/collectors/utils.py:41-87 | on contiguous ids the result is the padded table of the maximal runs |
| Trajectories.SplitFailsOnlyOnSingleRun | torchrl/collectors/utils.py:44-82 | on contiguous ids the only failures are an empty rollout, a single run whose length is not the time dimension, and a missing `done` entry off the shortcut; a missing `done` on a nonempty rollout is a KeyError, every other failure a TypeError |
| Trajectories.SingleIdBatchFails | torchrl/collectors/utils.py:42-82 | a 2x2 batch holding one id fails with TypeError when `done` is present and with KeyError when it is absent |
| CollectorHelpers.FloorDiv | torchrl/collectors/helpers.py:155-157 | Python floor division, characterised by its bounds for both signs of the divisor |
| CollectorHelpers.NegFloorDivIsCeil | torchrl/collectors/helpers.py:155-157 | `-(a // -b)` is the ceiling of `a / b` |
| CollectorHelpers.PyChunksAreChunks | torchrl/collectors/helpers.py:171-172 | the slicing comprehension cuts the list into consecutive chunks of the given size, the last one possibly shorter |
| CollectorHelpers.Sizing | torchrl/collectors/helpers.py:152-167 | for a list of constructors, a missing count is the ceiling of the number of environments by the other, and two given counts must cover the environments; a single constructor needs both counts and is repeated; no count at all raises |
| CollectorHelpers.KwargsList | torchrl/collectors/helpers.py:150-169 | a keyword list is kept, and a single dictionary or none is repeated once per environment |
| CollectorHelpers.MakeCollector | torchrl/collectors/helpers.py:150-180 | with a positive chunk size the result exists exactly when the number of chunks equals the number of collectors; the chunks concatenate to the constructors; all chunks but the last are full; a replicated keyword list is cut alike; constructors are direct exactly when there is one environment per collector |
| CollectorHelpers.MakeCollectorChunks | torchrl/collectors/helpers.py:171-173 | the number of constructor chunks is the ceiling of environments by chunk size |
| CollectorHelpers.FiveEnvsOverFourCollectors | torchrl/collectors/helpers.py:155-173 | five environments over four collectors give two per collector, three chunks and an AssertionError |
| CollectorHelpers.KwargsChunks | torchrl/collectors/helpers.py:168-172 | a replicated keyword list is cut into chunks of the same sizes as the constructors |
| CollectorHelpers.BuildFrom | torchrl/collectors/helpers.py:175-180 | a direct constructor reads the first entry of each chunk, and a parallel one takes the whole chunk as its workers |
| CollectorHelpers.CollectorEnvs | torchrl/collectors/helpers.py:175-180 | the intended constructor list: one constructor per pair of chunks, in order, as many as `zip` yields |
| CollectorHelpers.CollectorEnvsAsWritten | torchrl/collectors/helpers.py:175-180 | the constructors as written are as many as `zip` yields pairs of chunks |
| CollectorHelpers.CollectorEnvsCoverEnvs | torchrl/collectors/helpers.py:152-180 | the intended constructors together start every environment exactly once, in order |
| CollectorHelpers.TwoCollectorsBuildLastTwice | torchrl/collectors/helpers.py:175-177 | for two environments over two collectors, the constructors as written both build the second environment, while the intended ones build the first and then the second |
| CollectorHelpers.AsWrittenRepeatsLast | torchrl/collectors/helpers.py:175-180 | for any plan, every constructor as written is the last intended constructor, so the late-bound lambdas all build the last chunk |
| RlhfTokens.Scatter | torchrl/data/rlhf/utils.py:143-144 | masked assignment into a filled row leaves the fill wherever the mask is unset |
| RlhfTokens.ScatterTokens | torchrl/data/rlhf/utils.py:142-144 | writing padding-free tokens through a mask and reading them back returns the same mask and the same tokens |
| RlhfTokens.TokensAreEosFree | torchrl/data/rlhf/utils.py:142-144 | the extracted tokens contain no padding and are as many as the mask's set bits |
| RlhfTokens.RightToLeft | torchrl/data/rlhf/utils.py:139-145 | moving padding to the left keeps the row length and the tokens in order |
| RlhfTokens.RightToLeftMovesPadding | torchrl/data/rlhf/utils.py:139-145 | a right-padded row `tokens ++ EOS^k` becomes `EOS^k ++ tokens` |
| RlhfTokens.FirstToken | torchrl/data/rlhf/utils.py:160-162 | the first non-padding position: everything before it is padding |
| RlhfTokens.StartedIsSuffixMask | torchrl/data/rlhf/utils.py:160-162 | the cumulative-product mask is false before the first token and true from it on, so padding after a token is kept |
| RlhfTokens.LeftToRight | torchrl/data/rlhf/utils.py:148-168 | the result exists exactly when the target length is at least the row length, and then has the target length |
| RlhfTokens.StartedSelect | torchrl/data/rlhf/utils.py:162-167 | masked indexing with the started mask keeps the row from its first token on |
| RlhfTokens.LeftToRightMovesSuffix | torchrl/data/rlhf/utils.py:148-168 | the row from its first token on is written at the front of a padding-filled row of the target length |
| RlhfTokens.GenerateRoundTrip | torchrl/data/rlhf/utils.py:265-287 | a right-padded prompt moved left for generation and moved back afterwards is the prompt, the generated tokens, then padding |
| RlhfTokens.Window | torchrl/data/rlhf/utils.py:239-241 | the positions the window mask selects are the slice `[start, start + n)` when it lies inside the row |
| RlhfTokens.GeneratedTokens | torchrl/data/rlhf/utils.py:237-242 | every output row holds `max_new_tokens` entries, so a non-positive width never succeeds |
| RlhfTokens.GeneratedTokensAreWindows | torchrl/data/rlhf/utils.py:237-242 | when every window lies inside its row, output row `i` is exactly the window of row `i` |
| RlhfTokens.RaggedWindowsFail | torchrl/data/rlhf/utils.py:241-242 | for two rows of three tokens with prompt lengths 0 and 2 and a width of 2, the second window runs past its row, three tokens are selected, and the reshape raises |
| RlhfTokens.Rollout | torchrl/data/rlhf/utils.py:70-133 | the rollout exists exactly when there is at least one step, the generation window fits the row, and the row holds at least the prompt's number of tokens; then actions, inputs, next inputs, attention masks and done flags each have `max_new_tokens` entries, and every state is as long as the row |
| RlhfTokens.PrefixStep | torchrl/data/rlhf/utils.py:74-81 | moving the bound one position writes exactly that position's token |
| RlhfTokens.PrefixStates | torchrl/data/rlhf/utils.py:72-82 | there are `max_new_tokens + 1` states, each as long as the row, and state `i` keeps the row before `rindex + i` and pads the rest |
| RlhfTokens.DoneIndex | torchrl/data/rlhf/utils.py:88-91 | the done index is below `max_new_tokens`, and it is a valid step exactly when there is a step and the row holds at least `rindex` non-padding tokens |
| RlhfTokens.RolloutIsStepwise | torchrl/data/rlhf/utils.py:120-133 | each next input is the input with the step's action written at `rindex + t`, and the first input is the bare prompt |
| RlhfTokens.RolloutAttention | torchrl/data/rlhf/utils.py:84-127 | every attention mask marks exactly the non-padding tokens of its input |
| RlhfTokens.RolloutDoneOnce | torchrl/data/rlhf/utils.py:88-98 | exactly one step of every rollout is done |
| RlhfTokens.DoneAtFirstEos | torchrl/data/rlhf/utils.py:86-91 | on a prompt followed by `n` generated tokens and padding, `done` falls at step `min(n, max_new_tokens - 1)`: the step that samples the first padding token, or the last step; every earlier action is a real token |
| MinariData.NameMatch | torchrl/data/datasets/minari_data.py:32-38 | exactly the six plural Minari keys are renamed, and never to another plural key |
| MinariData.NameMatchIdempotent | torchrl/data/datasets/minari_data.py:32-38 | renaming a renamed key changes nothing |
| MinariData.DtypeLookup | torchrl/data/datasets/minari_data.py:388-395 | a known name gives the dtype of that name; an unknown name raises KeyError |
| MinariData.DtypeRoundTrip | torchrl/data/datasets/minari_data.py:388-395 | looking up a dtype's name gives the dtype back |
| MinariData.DataPathRoot | torchrl/data/datasets/minari_data.py:188-190 | the dataset directory is the dataset id under the root |
| MinariData.DataPath | torchrl/data/datasets/minari_data.py:182-186 | the path differs from the dataset directory exactly when trajectories are split, and then names the `_split` copy |
| MinariData.MetadataPath | torchrl/data/datasets/minari_data.py:192-194 | the metadata file sits inside the dataset directory |
| MinariData.ForceRemovals | torchrl/data/datasets/minari_data.py:151-157 | a forced download removes only existing paths; the dataset directory goes first; a missing dataset directory stops the removals; the split copy is removed only when it is a different existing path |
| MinariData.Decide | torchrl/data/datasets/minari_data.py:150-162 | download when forced or when asked and the data path is missing; split when not downloading, splitting is asked and the split copy is missing; otherwise load from the data path |
| MinariData.MissingSplitRedownloads | torchrl/data/datasets/minari_data.py:150-186 | a truthy download with a missing split copy always downloads again, even when the unsplit data exists |
| MinariData.BoxSpec | torchrl/data/datasets/minari_data.py:339-351 | a box is unbounded only when every low bound is minus infinity and every high bound is plus infinity |
| MinariData.ProcSpecCorrect | torchrl/data/datasets/minari_data.py:332-357 | converting a space description succeeds exactly on supported descriptions and then yields the matching spec; failures are TypeError, KeyError or NotImplementedError |
| MinariData.ProcEntriesCorrect | torchrl/data/datasets/minari_data.py:335-338 | a dict description converts exactly when all its subspaces do, entry by entry |
| MinariData.EpisodeNumber | torchrl/data/datasets/minari_data.py:216 | an episode key parses exactly when its characters after the first eight (the length of `episode_`) are ASCII decimal digits, and then gives their decimal value; otherwise ValueError |
| MinariData.EpisodeKeyRoundTrip | torchrl/data/datasets/minari_data.py:216 | the stored name of episode `n` parses back to `n` |
| MinariData.Insert | torchrl/data/datasets/minari_data.py:217 | recording an episode keeps the order ascending and replaces an earlier key with the same number |
| MinariData.EpisodeOrder | torchrl/data/datasets/minari_data.py:214-257 | the corrected order: every episode key parses, and `sorted(episode_dict)` is strictly ascending |
| MinariData.EpisodeOrderKeys | torchrl/data/datasets/minari_data.py:257-259 | every entry of the order is a stored key together with its own number |
| MinariData.EpisodeOrderComplete | torchrl/data/datasets/minari_data.py:214-257 | every stored episode number appears in the corrected order |
| MinariData.EpisodeOrderAsWritten | torchrl/data/datasets/minari_data.py:215-244 | the order as written holds at most one episode, because the `break` ends the structure pass after the first one |
| MinariData.TotalStepsCounts | torchrl/data/datasets/minari_data.py:208-212 | when the table length exists, every stored episode has an `actions` array and the length is the sum of their lengths |
| MinariData.Template | torchrl/data/datasets/minari_data.py:215-243 | the structure pass succeeds exactly when every item of the first episode is a shapeless observation-like group or a nonempty array, and then defines exactly the columns that episode writes; any other item raises IndexError |
| MinariData.InitialTable | torchrl/data/datasets/minari_data.py:247 | expanding the template gives each column `total_steps` copies of its zero row |
| MinariData.Assign | torchrl/data/datasets/minari_data.py:271-282 | slice assignment keeps the column length and every row outside the slice |
| MinariData.AssignInRange | torchrl/data/datasets/minari_data.py:271-282 | an in-range slice as long as the values is overwritten by exactly those values |
| MinariData.SetColumn | torchrl/data/datasets/minari_data.py:271-282 | writing rows of one column keeps every column and length and leaves every other column as it was; a column the structure pass did not create raises KeyError |
| MinariData.Groups | torchrl/data/datasets/minari_data.py:257-259 | the stored episodes are fetched exactly when every key of the order is stored, one per key and in order |
| MinariData.EntryWrites | torchrl/data/datasets/minari_data.py:262-282 | observation-like items write two columns and every other item one |
| MinariData.FillEntryEffect | torchrl/data/datasets/minari_data.py:260-282 | one consistent item written at `index` changes only its own columns in rows `[index, index + n)`, and its values land there |
| MinariData.FillEpisodeEffect | torchrl/data/datasets/minari_data.py:260-285 | a consistent episode written at `index` changes only its own columns within its rows, every written item lands, and `steps` becomes the episode's step count |
| MinariData.FillEpisodesEffect | torchrl/data/datasets/minari_data.py:254-285 | consecutive well-formed episodes each land at the offset given by the steps before them, and nothing outside `[index, index + total)` changes |
| MinariData.LaidOutIndexed | torchrl/data/datasets/minari_data.py:254-285 | writing the episodes one after another, each from where the previous one stopped, puts episode `k` exactly at `index` plus the step counts of the episodes before it, and conversely |
| MinariData.DoneColumn | torchrl/data/datasets/minari_data.py:288-291 | `done` exists only when both the terminated and truncated columns exist |
| MinariData.Layout | torchrl/data/datasets/minari_data.py:204-291 | the table has `total_steps` rows in every column, and `done` is computed from it |
| MinariData.Preprocess | torchrl/data/datasets/minari_data.py:196-291 | the corrected reader: every column of the result has as many rows as the dataset has steps, and so does `done`; when it succeeds, the ordered episodes exist |
| MinariData.OrderedEpisodes | torchrl/data/datasets/minari_data.py:257-259 | the episodes in writing order: entry `k` is the stored episode under the `k`-th key of the ascending episode order |
| MinariData.OrderKeysDistinct | torchrl/data/datasets/minari_data.py:214-217 | the keys of the episode order are all different, because their numbers are |
| MinariData.DistinctKeysFit | torchrl/data/datasets/minari_data.py:208-212 | episodes stored under different keys, each consistent with its step count, take at most the summed action counts, and each has its `actions` array written |
| MinariData.OrderedStepsFit | torchrl/data/datasets/minari_data.py:208-285 | the ordered episodes' steps add up to at most the table length |
| MinariData.PreprocessStart | torchrl/data/datasets/minari_data.py:246-285 | the corrected reader fills a table with the result's columns, each `total_steps` long, by writing the ordered episodes from row 0 |
| MinariData.PreprocessLaysOutEpisodes | torchrl/data/datasets/minari_data.py:196-285 | when the corrected reader succeeds on episodes that are consistent with their step counts, rename no two items alike and write only table columns, their steps fit in the table and the `k`-th episode in ascending number lands at the summed steps of the episodes numbered below it |
| MinariData.PreprocessAsWritten | torchrl/data/datasets/minari_data.py:196-291 | the reader as written: the table length is still the total step count |
| MinariData.TwoEpisodesOrderAsWritten | torchrl/data/datasets/minari_data.py:214-244 | for a two-episode file, the order as written holds only `episode_0` |
| MinariData.OnlyFirstEpisodeWritten | torchrl/data/datasets/minari_data.py:214-259 | for two one-step episodes with actions 5 and 7, the reader as written leaves the action column `[5, 0]`, while the corrected reader gives `[5, 7]` |
| Discrete.TreatParams | torchrl/modules/distributions/discrete.py:17-24 | None passes through; a trailing dimension of size one is dropped and the entries kept; a zero-dimensional tensor raises IndexError |
| Discrete.TreatParamsKeepsSize | torchrl/modules/distributions/discrete.py:17-24 | squeezing never changes the number of entries |
| Discrete.TreatParamsIdentity | torchrl/modules/distributions/discrete.py:17-24 | parameters whose last dimension is not one are returned unchanged |
| Discrete.FirstAboveFrom | torchrl/modules/distributions/discrete.py:30-31 | the reference search: the first index whose prefix sum exceeds the threshold, or none |
| Discrete.RandOneHot | torchrl/modules/distributions/discrete.py:27-32 | the selection has one flag per weight |
| Discrete.RandOneHotIsFirstAbove | torchrl/modules/distributions/discrete.py:27-32 | on non-negative weights the selection is one-hot at the first index whose cumulative weight exceeds the threshold, and empty when there is none |
| Discrete.RandOneHotNeedsNonNegative | torchrl/modules/distributions/discrete.py:28-31 | with a negative weight the selection can mark two positions |
| Discrete.AtMax | torchrl/modules/distributions/discrete.py:71-76 | `mode` marks exactly the positions holding the maximum; an empty row raises IndexError |
| Discrete.AtMaxCount | torchrl/modules/distributions/discrete.py:71-76 | the mode marks at least one position, and exactly one when the entries are distinct |
| Discrete.Where | torchrl/modules/distributions/discrete.py:219 | `where` keeps entries where the mask is set and fills elsewhere; a length-one side broadcasts; other mismatches raise |
| Discrete.Gather | torchrl/modules/distributions/discrete.py:226 | gathering succeeds exactly when every index addresses an entry, and returns the addressed entries |
| Discrete.ApplyMask | torchrl/modules/distributions/discrete.py:211-251 | no mask leaves the row; a dense mask fills the excluded entries; a sparse mask gathers the listed entries and fills the padding slots; a mask of the wrong kind raises |
| Discrete.DenseMaskIdempotent | torchrl/modules/distributions/discrete.py:240-241 | a dense mask applied twice is applied once |
| Discrete.DenseMaskAllTrue | torchrl/modules/distributions/discrete.py:240-241 | an all-true dense mask leaves the row unchanged |
| Discrete.SparseIsCompressedDense | torchrl/modules/distributions/discrete.py:243-251 | a sparse mask listing the positions a dense mask keeps gives exactly the entries the dense mask keeps, compressed |
| Discrete.DenseKeepsKept | torchrl/modules/distributions/discrete.py:218-219 | dense masking keeps every entry the mask selects |
| Discrete.NewMaskedCategorical | torchrl/modules/distributions/discrete.py:147-171 | giving both or neither of probs and logits raises ValueError; otherwise the distribution exists exactly when masking the given tensor succeeds, and a masking failure is a RuntimeError; the logits are the masked logits, or the logarithm of each masked probability; the mask, fill and padding are kept, and the distribution is sparse only when a mask is present and sparse masking is asked |
| Discrete.ApplyMaskMap | torchrl/modules/distributions/discrete.py:211-251 | masking commutes with an entry-wise map when the fill is mapped too: the same cases succeed or fail alike, and the masked mapped row is the mapped masked row |
| Discrete.ProbsAgreeWithLogits | torchrl/modules/distributions/discrete.py:156-171 | when `log` maps 0 to `neg_inf`, giving probabilities or their logarithms as logits builds the same distribution |
| Discrete.SparseSample | torchrl/modules/distributions/discrete.py:173-192 | without a sparse mask the draws are returned; with one, draw `t` becomes the listed index at that position, and an out-of-range draw raises |
| Discrete.SparseSampleInMask | torchrl/modules/distributions/discrete.py:184-192 | every sparse sample is one of the listed indices |
| Discrete.FirstMatch | torchrl/modules/distributions/discrete.py:199-202 | the first position of a value in the index list, or none when it is absent |
| Discrete.SparseLogProb | torchrl/modules/distributions/discrete.py:195-208 | an empty index list raises RuntimeError, because the mask cannot be viewed with a zero last dimension; otherwise a listed value scores the log-probability of its first position and an unlisted value scores `neg_inf` |
| Discrete.SampleLogProbRoundTrip | torchrl/modules/distributions/discrete.py:180-208 | with distinct listed indices, scoring the sample of position `j` gives the log-probability of `j` |
| Discrete.SparseLogProbAbsent | torchrl/modules/distributions/discrete.py:204-207 | a value outside the mask scores `neg_inf` |
| Actors.ActorKeys | torchrl/modules/probabilistic_operators/actors.py:26-29 | given keys are kept; missing input keys default to `observation` and missing output keys to `action` |
| Actors.ActorKeysStable | torchrl/modules/probabilistic_operators/actors.py:26-29 | building again from the keys an actor was built with changes nothing |
| Actors.OneHot | torchrl/modules/probabilistic_operators/actors.py:63-66 | `_one_hot` succeeds exactly on a nonempty row, keeps its length, and an empty row raises IndexError |
| Actors.OneHotMarksMaxima | torchrl/modules/probabilistic_operators/actors.py:63-66 | `_one_hot` marks exactly the positions holding the row maximum |
| Actors.Segments | torchrl/modules/probabilistic_operators/actors.py:69 | the split succeeds exactly when the sizes are non-negative and add up to the row length, and its pieces concatenate to the row |
| Actors.SegmentsOfFlatten | torchrl/modules/probabilistic_operators/actors.py:69 | cutting a concatenation at its pieces' lengths gives the pieces back |
| Actors.OneHotEach | torchrl/modules/probabilistic_operators/actors.py:70 | every segment is encoded independently; an empty segment has no maximum and raises |
| Actors.MultOneHot | torchrl/modules/probabilistic_operators/actors.py:68-70 | without `var_nums` the split raises TypeError; otherwise the result exists exactly when there is at least one size, every size is positive, and the sizes add up to the row length, and then it is as long as the row |
| Actors.MultOneHotSegments | torchrl/modules/probabilistic_operators/actors.py:68-70 | segment `k` of the output is the one-hot of segment `k` of the input and marks at least one position |
| Actors.QValueHookCall | torchrl/modules/probabilistic_operators/actors.py:54-61 | only `one_hot` can be called with the Q-values alone, which are passed through unchanged; the two other encoders miss their second argument and raise TypeError; an unknown action space raises KeyError |
| Actors.QValueHookMarksMaxima | torchrl/modules/probabilistic_operators/actors.py:60-66 | the action of a one-hot Q-value actor marks exactly the maximal Q-values, at least one |
| Actors.NewQValueActor | torchrl/modules/probabilistic_operators/actors.py:128-139 | output keys are fixed to `action` and `action_value`; passing them raises TypeError; a distribution other than Delta fails the assertion |
| Actors.RandomSample | torchrl/modules/probabilistic_operators/actors.py:141-150 | only the one-hot action space can be sampled at random; the others raise NotImplementedError |
| Actors.RandomSampleIsFirstAbove | torchrl/modules/probabilistic_operators/actors.py:141-144 | a random one-hot action selects the first index whose cumulative softmax weight exceeds the uniform draw |
| Actors.NewActorCritic | torchrl/modules/probabilistic_operators/actors.py:193-226 | a nonempty output-key list fails the assertion; otherwise the operator outputs the policy's `action`, `action_log_prob` followed by the value's `state_value`, and both heads read `hidden_obs` |
| Actors.NamedParameters | torchrl/modules/probabilistic_operators/actors.py:253-281 | an unknown head raises AttributeError; non-recursive enumeration fails the assertion; otherwise the head's parameters come first, then the common network's unless excluded |
| Actors.NamedParametersShareCommon | torchrl/modules/probabilistic_operators/actors.py:272-281 | both heads' views end with the same common parameters, and excluding them drops exactly those |
| Rnn.Unravel | torchrl/modules/tensordict_module/rnn.py:446-447 | unravelling keeps a key's tuple form and reaches a flat key; a flat key is left alone |
| Rnn.CheckCore | torchrl/modules/tensordict_module/rnn.py:407-431 | a given instance is accepted exactly when it is batch-first, unidirectional and comes without sizes, and is kept; without one, the arguments are accepted exactly when they ask for batch-first, unidirectional layout with both sizes given, a positive hidden size and a positive layer count; every rejection is a ValueError except a missing size, which is a TypeError |
| Rnn.BuildCore | torchrl/modules/tensordict_module/rnn.py:421-431 | building a core succeeds exactly when the hidden size is given and positive, the layer count is positive and the input size is given; a missing hidden size is a TypeError, a zero size or layer count a ValueError, and a missing input size with valid sizes a TypeError |
| Rnn.DefaultSizesRejected | torchrl/modules/tensordict_module/rnn.py:388-431 | building an LSTM from the default arguments, where `hidden_size` is None, raises TypeError |
| Rnn.ExpandKeys | torchrl/modules/tensordict_module/rnn.py:432-444 | giving both or neither of the single key and the key list raises ValueError; a truthy single key is followed by the class defaults; a falsy one leaves the list unset; a key list is kept |
| Rnn.UnravelList | torchrl/modules/tensordict_module/rnn.py:446-447 | an unset list raises TypeError; a list keeps its length and each key its tuple form, and becomes unravelled |
| Rnn.ResolveKeys | torchrl/modules/tensordict_module/rnn.py:432-447 | giving both or neither of the single key and the key list raises ValueError; a truthy single key is followed by the class defaults; a falsy single key leaves the list unset and unravelling raises TypeError; the result is unravelled |
| Rnn.WithIsInit | torchrl/modules/tensordict_module/rnn.py:459-460 | `is_init` is appended exactly when absent, so the result always contains it and keeps the given keys in front |
| Rnn.NewRecurrentModule | torchrl/modules/tensordict_module/rnn.py:388-463 | a built module has accepted arity, contains `is_init`, is not in recurrent mode, and carries the resolved keys; without an instance its core has the given positive hidden size and an input size was given; a bad core is rejected first, with its own error |
| Rnn.InKeyExclusive | torchrl/modules/tensordict_module/rnn.py:432-435 | giving both or neither of `in_key` and `in_keys` raises ValueError |
| Rnn.OutKeyExclusive | torchrl/modules/tensordict_module/rnn.py:439-442 | once the core is accepted, giving both or neither of `out_key` and `out_keys` raises ValueError, whatever the input keys are |
| Rnn.FalsyInKeyRaisesLate | torchrl/modules/tensordict_module/rnn.py:432-447 | an empty-string `in_key` with no output key raises the output ValueError, and with a truthy `out_key` raises TypeError when the unset input list is unravelled |
| Rnn.WrongInArity | torchrl/modules/tensordict_module/rnn.py:448-453 | an input list that is neither one plus the number of hidden states nor two plus it raises ValueError |
| Rnn.WrongOutArity | torchrl/modules/tensordict_module/rnn.py:454-457 | an output list of any length other than one plus the number of hidden states raises ValueError |
| Rnn.SingleKeysExpand | torchrl/modules/tensordict_module/rnn.py:385-460 | single keys expand to the value key, the default hidden keys and `is_init`, and to the output key followed by the `("next", …)` defaults |
| Rnn.RebuildKeepsKeys | torchrl/modules/tensordict_module/rnn.py:545 | the constructor accepts a built module's own core and keys and gives them back unchanged |
| Rnn.SetRecurrentModeAttribute | torchrl/modules/tensordict_module/rnn.py:498-502 | assigning `recurrent_mode` always raises RuntimeError |
| Rnn.SetRecurrentMode | torchrl/modules/tensordict_module/rnn.py:543-547 | on a built module the result is the same module with the requested mode: the same core and keys, itself when unchanged |
| Rnn.SetRecurrentModeRoundTrip | torchrl/modules/tensordict_module/rnn.py:543-547 | switching away and back gives the original module, and switching twice to one mode equals switching once |
| Rnn.MakePrimer | torchrl/modules/tensordict_module/rnn.py:465-492 | on a built module the primer either raises RuntimeError or registers every hidden input key; it registers only when each hidden output is `("next", *input)`, and a rejection names a hidden position that breaks this |
| Rnn.DefaultKeysPrime | torchrl/modules/tensordict_module/rnn.py:473-482 | a module built from single keys passes the naming check and primes the default hidden keys |
| Rnn.RenamedOutputRejected | torchrl/modules/tensordict_module/rnn.py:1122-1129 | a GRU module whose hidden output is not named after its hidden input is refused by the primer |
| Rnn.StepHidden | torchrl/modules/tensordict_module/rnn.py:616-666 | outside recurrent mode only single steps are accepted (ValueError); a mix of given and missing hidden states raises RuntimeError; every returned hidden state is zero for the first `steps - 1` positions and holds the core's final state last |
| Rnn.OnlyFirstStepRead | torchrl/modules/tensordict_module/rnn.py:647-649 | only the first time step of a hidden input is read: inputs that agree there give the same result |
| Rnn.MissingIsZero | torchrl/modules/tensordict_module/rnn.py:1268-1276 | missing hidden inputs behave exactly like hidden inputs that are zero throughout |
| Rnn.ResetAtInit | torchrl/modules/tensordict_module/rnn.py:597-599 | when a step starts a trajectory and the first hidden input is present, every hidden input is zeroed at those steps and kept elsewhere; if another hidden input is then missing, the assignment into it raises TypeError |
| Rnn.ResetIdempotent | torchrl/modules/tensordict_module/rnn.py:597-599 | resetting twice is resetting once |
| Rnn.ForwardHidden | torchrl/modules/tensordict_module/rnn.py:597-602 | the reset followed by the core call returns one padded hidden state per input, spanning the time steps |
| Rnn.FreshStartIgnoresCarriedState | torchrl/modules/tensordict_module/rnn.py:597-649 | a row whose first step starts a trajectory gives the result for missing hidden inputs, whatever hidden state it carried |

## Left out

- Downloading, file removal, memory-mapped storage, HDF5 reading, progress bars and metadata files are left out. The Minari model decides which branch is taken and what the table holds; the file system is a set of existing paths.
- Floating-point arithmetic is not modelled. This covers softmax, logarithms, clipping, the KL term, `_get_scores`, and the LSTM/GRU cell. The recurrent core is a function parameter from initial to final states. `NewMaskedCategorical` takes the logarithm as a parameter.
- Random draws become parameters: the threshold of `rand_one_hot` and the base distribution's samples. The log-probabilities of the non-sparse `MaskedCategorical` and of `OneHotCategorical` come from `torch.distributions.Categorical`, which is not part of this model.
- Batch dimensions are modelled one row at a time wherever rows do not interact. The exception is the final reshape of `_get_generated_tokens`, which is modelled over all rows.
- The reshaping and trajectory splitting inside `LSTMModule.forward`/`GRUModule.forward` are left out. This covers the unsqueeze, the flattening, `_split_and_pad_sequence` and `_inv_pad_sequence`; only the hidden-state reset and the core call are modelled.
- `unravel_key_list` is not part of this model. It is taken to turn one-element tuples into strings and to fail with TypeError on an unset list. Nested tuples are not flattened.
- `Rnn.ResetAtInit`: a reset is triggered when the modelled row has an initial step. In the source, an initial step in any row of the batch triggers it, so the TypeError for a missing second hidden state can also come from another row.
- `Rnn.MakePrimer`: the returned primer is reduced to its keys and the `(num_layers, hidden_size)` shape; the spec classes are not modelled.
- `Rnn.SetRecurrentMode`: the mode is a Boolean, so the identity test `mode is self._recurrent_mode` is modelled as equality.
- `Actors.MultOneHot`: only a list of segment sizes is modelled for `var_nums`. An integer `var_nums` (equal-size splits) is not.
- `DistributionalQValueHook`, `DistributionalQValueActor`, the `ProbabilisticOperator` base classes and the networks themselves are not modelled. Parameters are named opaque values.
- The `collector_class` call and the keyword arguments forwarded to it are not modelled. The `_make_collector` model stops at the constructor list.
- `_spec_to_dict` builds descriptions from gym spaces, which are not part of this model. Descriptions are given directly as data.
- `Trajectories.Split`: rollouts are modelled with one or two batch dimensions. With three or more, the shortcut compares run lengths with the last dimension only while the slow path flattens every dimension; that case is not modelled.
- `MinariData.EpisodeNumber`: only ASCII decimal digits parse. Python's `int()` also accepts surrounding whitespace, a sign, underscores between digits and non-ASCII decimal digits; the model rejects those keys with ValueError.
- `Rnn.BuildCore`: only the size checks of torch's `RNNBase` are modelled (`hidden_size` an integer and positive, `num_layers` positive, `input_size` an integer). Its checks of `dropout`, `proj_size`, `bias` and `device` are not; `nn.LSTM` and `nn.GRU` are not part of this model. A layer count is a natural number, so a negative one is not represented.
- `Discrete.Mode` carries no contract of its own. It is `Discrete.AtMax` on the logits, because a torch `Categorical` always holds `logits`, so the `probs` branch of `mode` is never taken.

## Findings

| source | as written | input that shows it | evidently intended | confidence | as-written member | corrected member |
|---|---|---|---|---|---|---|
| torchrl/data/datasets/minari_data.py:244 | the `break` ends the loop over episodes after the first one, and that loop is also the only place where `episode_dict` is filled, so only the first episode is copied into the table; the other rows keep their zeros | two one-step episodes with actions 5 and 7: the action column is `[5, 0]` | only the structure pass stops after one episode, and every episode is recorded and copied, giving `[5, 7]` | high, not executed | MinariData.PreprocessAsWritten (shown by MinariData.OnlyFirstEpisodeWritten) | MinariData.Preprocess (with MinariData.PreprocessLaysOutEpisodes) |
| torchrl/collectors/helpers.py:175-180 | the constructor lambdas read the comprehension variables `_env_fn`, `_env_kwargs` when called, after the comprehension has finished, so every collector builds the last chunk's environments | two environments over two collectors: both constructors build the second environment | collector `k` builds the environments of chunk `k`, so every environment is built once | high, not executed | CollectorHelpers.CollectorEnvsAsWritten (shown by CollectorHelpers.TwoCollectorsBuildLastTwice) | CollectorHelpers.CollectorEnvs (with CollectorHelpers.CollectorEnvsCoverEnvs) |

