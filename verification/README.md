# DeepSpeech: a verified model of the decoder, the stream and their helpers

This project models the native client of DeepSpeech in Dafny and proves what its parts are for.

* **The CTC prefix beam search** (`Decoder`, with `Hypotheses`, `Beam*`, `Frame*`, `PathTrie`, `TrieOps`, `Selection`).
  The trie, the two nested loops of a frame, the cut of the beam and the final sort are imperative. They are proved against an
  independent definition of CTC (`Ctc`): the sum, over all alignments that collapse to a label sequence, of the product
  of their frame probabilities. The main theorem is the contract of `BeamSearch.CtcBeamSearchDecoder`: with any scorer and
  dictionary, the search is exact when nothing is cut and never overestimates otherwise. Every frame also refines a
  search on plain label sequences with their masses and timesteps (`Hypotheses`), on which the claims about single
  frames are made.
* **The cutoff of the beam search** (`CutoffRule`, `CutoffExact`, `CutoffRuns`, `Losses`): over all states that satisfy
  the invariant of the decoder, what the early break of the inner loop skips is worth less than what the beam keeps
  exactly for scorers that never multiply by more than max(1, exp(beta)) (1 + 2^-126). Factors above
  max(1, exp(beta)) (1 + 2^-125) are lost in actual runs of a new decoder (`CutoffRuns.RunLoses`). Even with smaller ones the break can cost a prefix that is already in the
  beam some mass; when it does not, it changes no survivor.
* **The dictionary** (`DictionaryWalk`, `Vocabulary`): exactly which label sequences the trie may hold.
* **Scoring units** (`Utf8`, `Scoring`, `ByteMode`, `ScorerLaws`): backward walks over the trie against a split of the
  whole text, and what the scorer contributes in terms of words and code points.
* **The alphabet** (`Alphabet.dfy`): binary form, encoding and decoding are inverse to each other.
* **Streaming** (`Windows`, `Streaming`): the state depends only on the audio fed so far, and a finished stream has the
  timesteps of training, each counted once in the calls of the model.
* **Option parsing** (`Permute`, `Getopt`): in-place block exchange by gcd cycles, and the order the scan leaves.
* **Compressed pointers of the language model** (`Bhiksha`): the compressed table refines plain pointers.
* **The execution plan of a model** (`ExecutionPlan`): the backward walk is a schedule.

`dafny verify dfyconfig.toml` checks the project.

## How the program is represented

* Probabilities are exact non-negative reals: adding logarithms is `*`, `log_sum_exp` is `+`, and -NUM_FLT_INF is 0.
  A class probability is floored as the program does, by adding the smallest float.
* Trie nodes live in a map from id to record. An id stands for a pointer, `new` takes an unused id, and `delete` takes
  the id out of the map, so a dangling pointer would be a missing key. The timestep tree is a sequence of records.
* The scorer is given by functions: `boundary` says where a unit ends, `lm` is exp(alpha * (log P + hot-word boost)),
  `lmFinal` is the same without the boost, and `beta` stands for exp(beta). Feature extraction, inference and the decoder
  as seen by the stream are function parameters too.
* Assertions and aborts of the program are modelled as `None` results or `false`, and the contracts say exactly when they
  happen.

## What the proofs show about the code

* `cutoff_top_n` leaves out no class when `cutoff_prob` is 1.0: the limit is only applied inside the branch on
  `cutoff_prob`. It still sorts the classes, and then the blank no longer comes last, as a comment in the loop has it. So
  a limit that leaves out nothing can change the timesteps of a transcript (`Losses.TimesFollowOrder`): a blank that
  outweighs everything else counts exactly if it is offered behind the label (`Hypotheses.TimesRule`), which it is for
  every label in unsorted classes and only for more likely ones in sorted ones (`Selection.BlankComesLast`).
* In `get_path_trie` the branch that rewrites the dictionary state after a failed match never changes a state.
* A dictionary entry that another entry begins is never matched as a whole, because the walk restarts at every final state.
* With hot-word boosts, or any factor above max(1, exp(beta)) (1 + 2^-126), the early break can drop an extension that is
  worth at least as much as what the beam keeps.
* Even with a scorer that changes nothing, the early break can drop the best transcript: it also skips the repeat and the
  extensions that add to prefixes already in the beam (`Losses.BreakLosesTheBest`).
* The length assertion of `decode` fails when more results are asked for than hypotheses have mass, for example after two
  frames with one label: the doubled label is in the beam without mass and without timesteps (`Losses.DecodeFails`).
* A beam of size 0 works until the first frame is expanded. There the program reads in front of its list of prefixes or
  removes the root; the model has a guard in that place and fails.
* The empty string does not encode: it is split into one empty piece.

## Model

| member | source | states |
|---|---|---|
| `BeamSearch.CtcBeamSearchDecoder` | native_client/ctcdecode/ctc_beam_search_decoder.cpp:267-284 | For every frame sequence, scorer and dictionary: each returned token sequence is permitted by the dictionary, and its confidence is at most its CTC probability (the sum over all alignments that collapse to it) times all factors of the scorer along it. If all classes are offered and the beam has room for (classes)^(expanded frames) prefixes it is exactly that, and the first transcript is the best of all permitted label sequences. In every case the transcripts are the best of the hypotheses that the search on label sequences arrives at, in falling order and each once. Decoding succeeds if at least as many of these have mass as are returned, and if nothing was lost exactly then; for one result without a scorer or with cutoff_prob >= 1 it fails exactly for a beam of size 0 and an expanded frame. Timesteps: one per token, increasing, among the frames seen; those of a transcript with mass are the ones the search on label sequences gives it |
| `BeamSearch.OutputsAreTop` | native_client/ctcdecode/ctc_beam_search_decoder.cpp:244-262 | The transcripts are different hypotheses with their final scores, in falling order, and no other hypothesis has a higher one; a transcript with mass has the timesteps of its hypothesis |
| `BeamSearch.FirstIsBest` | native_client/ctcdecode/ctc_beam_search_decoder.cpp:246-262 | If nothing was lost, no permitted label sequence, in the trie or not, is worth more than the first prefix after the final sort |
| `BeamSearch.PlainWorth` | native_client/ctcdecode/ctc_beam_search_decoder.cpp:151-185 | Without a scorer the objective of the search is the CTC probability |
| `BeamSearch.FinalScoreIs` | native_client/ctcdecode/ctc_beam_search_decoder.cpp:225-242 | The final score of a prefix is its score times a factor that depends only on its label sequence |
| `BeamSearch.OutputIsConfident` | native_client/ctcdecode/ctc_beam_search_decoder.cpp:254-262 | Confidence of every returned transcript against what it is worth: bound, and equality when nothing was lost |
| `Ctc.AlignmentsComplete` | training/deepspeech_training/train.py:222-227 | The reference sum of the CTC loss ranges over every alignment exactly once: each class sequence of the right length occurs once in the enumeration, and nothing else occurs |
| `Ctc.CollapseAppend` | native_client/ctcdecode/ctc_beam_search_decoder.cpp:107-145 | One more class changes the collapsed label sequence exactly if it is neither blank nor a repeat of the class before |
| `Ctc.MassBlankStep` | native_client/ctcdecode/ctc_beam_search_decoder.cpp:107-121 | Alignments that collapse to p and end in blank: their total weight is the whole mass of p before the frame times the blank probability |
| `Ctc.MassLabelStep` | native_client/ctcdecode/ctc_beam_search_decoder.cpp:123-149 | Alignments that collapse to q+l and end in l: the old non-blank mass of q+l, plus the mass of q, of which only the blank part counts if q ends in l, times the probability of l |
| `Ctc.MassInitially` | native_client/ctcdecode/ctc_beam_search_decoder.cpp:36-41 | Before any frame the empty sequence has mass one, all of it on the blank side, and every other sequence none |
| `Beam.AccumBlank` | native_client/ctcdecode/ctc_beam_search_decoder.cpp:107-121 | The blank visit adds exactly one term to the closed form of what every node has collected, and no other node changes |
| `Beam.AccumRepeat` | native_client/ctcdecode/ctc_beam_search_decoder.cpp:123-135 | The repeat visit adds exactly the repeat term of the closed form |
| `Beam.AccumExpand` | native_client/ctcdecode/ctc_beam_search_decoder.cpp:137-138 | Looking up, reviving or creating the child leaves every collected mass as the closed form says |
| `Beam.AccumExtend` | native_client/ctcdecode/ctc_beam_search_decoder.cpp:140-195 | The extension adds exactly the extension term, including the factor of the scorer, to the one child with that label |
| `BeamCtc.IdealBlankStep` | native_client/ctcdecode/ctc_beam_search_decoder.cpp:107-121 | Blank side of the recurrence for CTC mass times scorer factors, for every scorer |
| `BeamCtc.IdealLabelStep` | native_client/ctcdecode/ctc_beam_search_decoder.cpp:123-195 | Label side: the factor of the scorer applies to the extending mass only, and the repeated mass already has it |
| `BeamCtc.StepNode` | native_client/ctcdecode/ctc_beam_search_decoder.cpp:93-202 | After all visits of a frame each node holds at most, and if every prefix with mass was offered every class exactly, the CTC masses of its path times the factors of the scorer, for the frames including this one |
| `BeamCtc.StepAbsent` | native_client/ctcdecode/ctc_beam_search_decoder.cpp:93-202 | A label sequence that the dictionary permits and that has no live node after such a frame is worth nothing |
| `BeamCtc.HeldIsPermitted` | native_client/ctcdecode/path_trie.cpp:54-90 | The trie only holds label sequences that the dictionary permits |
| `BeamCtc.FrameMasses` | native_client/ctcdecode/ctc_beam_search_decoder.cpp:93-202 | A whole frame carries the bound over, and the equality too when every prefix with mass was offered every class |
| `BeamCtc.InitiallyExact` | native_client/ctcdecode/ctc_beam_search_decoder.cpp:36-41 | The initial trie has exactly the masses of no frames |
| `FrameSteps.VisitBlank` | native_client/ctcdecode/ctc_beam_search_decoder.cpp:107-121 | The blank visit keeps the whole frame invariant, the closed form of what every node has recorded included, and adds prefix score times blank probability to the collected total |
| `FrameSteps.VisitRepeat` | native_client/ctcdecode/ctc_beam_search_decoder.cpp:123-135 | The repeat visit keeps the frame invariant, the record included, and adds the repeated mass to the total |
| `FrameSteps.VisitExtend` | native_client/ctcdecode/ctc_beam_search_decoder.cpp:140-195 | The extension keeps the frame invariant, the record included, and adds the scored mass |
| `FrameSteps.VisitRefused` | native_client/ctcdecode/ctc_beam_search_decoder.cpp:137-140 | An extension that the dictionary does not permit keeps the frame invariant and adds nothing |
| `FrameSteps.RefusedIsNotPermitted` | native_client/ctcdecode/path_trie.cpp:54-65 | The lookup refuses an extension only if the dictionary does not permit the extended sequence |
| `FrameSteps.NothingLost` | native_client/ctcdecode/ctc_beam_search_decoder.cpp:123-149 | Repeat and extension together hand out exactly the score of the prefix times the class probability |
| `BeamShown.FrameShown` | native_client/ctcdecode/ctc_beam_search_decoder.cpp:93-202 | Refinement: the trie after the loops and the end of a frame shows exactly the label sequences, with exactly the masses and, where there is mass, exactly the timesteps, that one frame of the search on sequences gives |
| `BeamRecord.RecordBlank` | native_client/ctcdecode/ctc_beam_search_decoder.cpp:107-121 | The blank takes a recorded expansion away exactly if it outweighs what the node has collected: afterwards every record is that of the closed form, which takes away the record of a label only if the label is offered before the blank |
| `BeamRecord.RecordRepeat` | native_client/ctcdecode/ctc_beam_search_decoder.cpp:123-135 | A repeat takes a recorded expansion away exactly if it outweighs it; every record stays that of the closed form |
| `BeamRecord.RecordExpand` | native_client/ctcdecode/path_trie.cpp:37-52 | A child that is created or revived has nothing recorded |
| `BeamRecord.RecordExtend` | native_client/ctcdecode/ctc_beam_search_decoder.cpp:187-195 | An expansion is recorded, with the history of the prefix it came from, exactly if it outweighs what the child has collected; every record stays that of the closed form |
| `BeamShown.RecordShown` | native_client/ctcdecode/ctc_beam_search_decoder.cpp:107-195 | At the end of the loops an expansion is recorded exactly if the extension wins against the repeat and a blank offered behind it |
| `BeamShown.TimesShown` | native_client/ctcdecode/path_trie.cpp:159-190 | The timesteps of a node with mass after the frame: those of the prefix it grew from and this frame if the extension won, and otherwise those it had |
| `Hypotheses.TimesRule` | native_client/ctcdecode/ctc_beam_search_decoder.cpp:107-195 | If the extension outweighs the repeat, and the two together are not outweighed by the blank, a new timestep is put; if the repeat outweighs the extension none is. A blank that outweighs both keeps the old timesteps exactly if it is offered behind the label |
| `BeamShown.TimesStayInOrder` | native_client/ctcdecode/ctc_beam_search_decoder.cpp:93-202 | As many timesteps as labels, rising and before the frame: a frame of the search on label sequences keeps that, in whatever order classes and prefixes come |
| `Decoder.OrderListed` | native_client/ctcdecode/ctc_beam_search_decoder.cpp:76-83 | The prefixes are gone through in the order of prefix_compare with a scorer, and without one, while the beam was not cut, each behind all that it begins |
| `Selection.BlankComesLast` | native_client/ctcdecode/decoder_utils.cpp:7-39 | The blank is offered behind every label if the classes are not sorted; if they are, labels more likely than the blank come before it and less likely ones behind it |
| `Losses.TimesFollowOrder` | native_client/ctcdecode/ctc_beam_search_decoder.cpp:107-121 | A run of two frames with one label: whether cutoff_top_n is two or one all classes are offered and the label is the transcript, but its timestep is 0 or 1, because a limit below the number of classes sorts them and the blank comes first |
| `BeamShown.CutShown` | native_client/ctcdecode/ctc_beam_search_decoder.cpp:204-216 | Refinement of the cut: the trie then shows the best beam_size sequences, ties by character, with their masses and timesteps |
| `BeamShown.ShownLength` | native_client/ctcdecode/ctc_beam_search_decoder.cpp:200-202 | There are as many prefixes as hypotheses |
| `BeamTotal.SumCurIsLiveMass` | native_client/ctcdecode/path_trie.cpp:159-190 | What all nodes collected in the frame becomes the total score of the live nodes: no mass is lost or made at the end of a frame |
| `BeamTotal.SumScoreIsLiveMass` | native_client/ctcdecode/ctc_beam_search_decoder.cpp:200-202 | The list of prefixes adds up to the total score of the live nodes |
| `BeamGrowth.Growth` | native_client/ctcdecode/ctc_beam_search_decoder.cpp:93-202 | A frame makes the beam at most (number of classes) times as long |
| `BeamTime.TsKeep` | native_client/ctcdecode/ctc_beam_search_decoder.cpp:112-135 | A blank or repeat that outweighs a recorded expansion keeps the history of the node well formed |
| `BeamTime.TsExtend` | native_client/ctcdecode/ctc_beam_search_decoder.cpp:187-195 | An expansion that is the heaviest so far records the history of the parent and the present frame, which is one longer, increasing, and before the next frame |
| `BeamTime.TsCommit` | native_client/ctcdecode/path_trie.cpp:159-190 | At the end of the frame every node with mass has a history as long as its path, strictly increasing, and before the next frame |
| `BeamTime.TsPruned` | native_client/ctcdecode/ctc_beam_search_decoder.cpp:204-216 | Cutting the beam keeps that invariant |
| `PathTrie.AddChildWf` | native_client/ctcdecode/path_trie.cpp:66-99 | Adding a child keeps the trie well formed: links agree both ways, siblings have distinct labels, no two nodes spell the same sequence |
| `PathTrie.DropLeafWf` | native_client/ctcdecode/path_trie.cpp:192-209 | Freeing a leaf keeps the trie well formed |
| `PathTrie.GetPathVecIsPath` | native_client/ctcdecode/path_trie.cpp:102-111 | The walk to the root returns the label sequence of the node |
| `TrieOps.GetHistoryIsHist` | native_client/ctcdecode/path_trie.h:123-136 | The walk through the timestep tree returns the history of the node, and ends |
| `TrieOps.SubtreeSplit` | native_client/ctcdecode/path_trie.cpp:162-164 | A subtree is its root and the disjoint subtrees of the children |
| `TrieOps.RemovableIsNotRoot` | native_client/ctcdecode/path_trie.cpp:192-209 | While another prefix is live, a node without children is not the root: removal never frees the root |
| `TrieOps.Trie.constructor` | native_client/ctcdecode/ctc_beam_search_decoder.cpp:36-50 | A new trie is the root with the whole mass on its blank side |
| `TrieOps.Trie.GetPathTrie` | native_client/ctcdecode/path_trie.cpp:37-100 | Finds the child with the label, revives it with cleared masses if it was removed from the beam, creates it if the dictionary allows the label, and otherwise refuses; the trie stays well formed and nothing else changes |
| `TrieOps.Trie.ExtendHistory` | native_client/ctcdecode/path_trie.cpp:173-186 | The timestep node of an extended history: if there is a child with that timestep it is reused and the tree stays as it is, otherwise exactly that child is added |
| `TrieOps.Trie.CommitNode` | native_client/ctcdecode/path_trie.cpp:165-187 | End-of-frame update of one node, and of no other |
| `TrieOps.Trie.IterateToVec` | native_client/ctcdecode/path_trie.cpp:159-190 | Updates exactly the live nodes of the subtree, once each, and lists exactly those, once each, no node in front of one below it |
| `TrieOps.Trie.Remove` | native_client/ctcdecode/path_trie.cpp:192-209 | Takes the node out of the beam and frees exactly it and its dead ancestors that are left without children: afterwards every leaf is live, no live node is gone, and no freed node is referred to |
| `BeamSearch.BeamSizeBoundsLive` | native_client/ctcdecode/ctc_beam_search_decoder.cpp:204-216 | Between frames at most beam_size nodes are live and every leaf is live |
| `BeamSearch.AncestorsStay` | native_client/ctcdecode/path_trie.cpp:192-209 | Every beginning of the path of a node is the path of a node: no ancestor of a prefix is ever freed |
| `Decoder.DecoderState.constructor` | native_client/ctcdecode/ctc_beam_search_decoder.cpp:16-52 | The initial state satisfies the invariant of the decoder, for every beam size; its one hypothesis is the empty sequence with mass one |
| `Decoder.DecoderState.VisitBlankClass` | native_client/ctcdecode/ctc_beam_search_decoder.cpp:107-121 | Imperative blank visit: the masses and the record of every node are those of the closed form with this visit added; the record of the prefix goes exactly if the blank outweighs what it has collected |
| `Decoder.DecoderState.VisitLabel` | native_client/ctcdecode/ctc_beam_search_decoder.cpp:123-196 | Imperative label visit; without a scorer the total collected grows by exactly probability times score |
| `Decoder.DecoderState.Extend` | native_client/ctcdecode/ctc_beam_search_decoder.cpp:137-196 | Imperative extension: lookup, score, credit |
| `Decoder.DecoderState.ScoreExtension` | native_client/ctcdecode/ctc_beam_search_decoder.cpp:141-185 | The mass of the extension: a repeat only extends the blank mass; at a scoring boundary the factor of the language model applies, to the prefix without the new label in word mode and with it in byte mode. What the factors amount to is stated by the rows of ScorerLaws |
| `ScorerLaws.LmIsProduct` | native_client/ctcdecode/ctc_beam_search_decoder.cpp:151-185 | All factors of a scorer along a label sequence p: in word mode the product of lm(p[..i]) exp(beta) over the positions i where p[..i] ends at p[i], in byte mode of lm(p[..i+1]) exp(beta) over those where p[..i+1] ends |
| `ScorerLaws.WordsAreScored` | native_client/ctcdecode/ctc_beam_search_decoder.cpp:151-185 | With spaces as boundaries every piece of the sequence that a space ends is scored once, at the sequence ending in it and without the space |
| `ScorerLaws.SplitOfJoin` | native_client/ctcdecode/ctc_beam_search_decoder.cpp:151-170 | The sequences scored there split into exactly the pieces up to that one |
| `ScorerLaws.LastWordIsScored` | native_client/ctcdecode/ctc_beam_search_decoder.cpp:229-242 | The last piece is scored in the end, unless it is empty |
| `ScorerLaws.CodePointsAreScored` | native_client/ctcdecode/scorer.cpp:200-225 | In byte mode, on every path that begins a well-formed text, every code point is scored once, at the path that completes it; an unfinished one, and the empty path, in the end |
| `Decoder.DecoderState.Credit` | native_client/ctcdecode/ctc_beam_search_decoder.cpp:187-195 | Adds the mass to the child and records the expansion exactly if it outweighs what the child has collected |
| `Decoder.DecoderState.OfferClass` | native_client/ctcdecode/ctc_beam_search_decoder.cpp:97-197 | The loop over prefixes visits exactly the prefixes with mass that are not below the cutoff |
| `Decoder.DecoderState.OfferClasses` | native_client/ctcdecode/ctc_beam_search_decoder.cpp:93-198 | The loop over classes visits exactly those pairs, each once; without a scorer the total collected is (sum of class probabilities) times (total score) |
| `FrameRows.BreakSkipsTheRest` | native_client/ctcdecode/ctc_beam_search_decoder.cpp:99-101 | In a beam sorted by score, breaking at the first prefix below the cutoff skips exactly the prefixes below the cutoff |
| `Decoder.DecoderState.PrepareCutoff` | native_client/ctcdecode/ctc_beam_search_decoder.cpp:76-88 | With a scorer the prefixes are sorted by falling score and the cutoff is the lowest score times blank probability over max(1, exp(beta)) |
| `Decoder.DecoderState.FinishFrame` | native_client/ctcdecode/ctc_beam_search_decoder.cpp:200-202 | The prefixes become exactly the live nodes, at least one and at most (classes) times as many, none in front of one below it, and the collected total becomes the total score |
| `Decoder.DecoderState.ExpandFrame` | native_client/ctcdecode/ctc_beam_search_decoder.cpp:76-202 | One expanded frame refines the frame of hypotheses, timesteps included, and keeps the decoder sound: the bound of every mass and its equality without losses. Without a scorer and with cutoff_prob >= 1 the total score is multiplied by the total of the frame |
| `Decoder.DecoderState.FitBeam` | native_client/ctcdecode/ctc_beam_search_decoder.cpp:204-216 | Keeps all hypotheses if they fit, and otherwise a cut of them; the decoder stays sound |
| `Decoder.DecoderState.CutBeam` | native_client/ctcdecode/ctc_beam_search_decoder.cpp:204-216 | Keeps the best beam_size prefixes, and frees exactly what only the others needed |
| `Decoder.DecoderState.NextFrame` | native_client/ctcdecode/ctc_beam_search_decoder.cpp:60-217 | One frame keeps the invariant of the decoder, and what it does to the trie is one step of the search on label sequences. Before the first frame with blank probability below 0.999 nothing changes. A beam of size 0 fails exactly on an expanded frame. Without a scorer, with cutoff_prob >= 1 and without a cut the total score is conserved up to the total of the frame |
| `Decoder.DecoderState.Next` | native_client/ctcdecode/ctc_beam_search_decoder.cpp:54-218 | Any number of frames: which are expanded is a function of the frames alone, the hypotheses afterwards are reached from those before by one step of the search on label sequences for each of them, and only a beam of size 0 can fail |
| `Decoder.RunsConcat` | native_client/ctcdecode/ctc_beam_search_decoder.cpp:54-74 | Dividing the frames over two calls makes no difference to which hypotheses a run can reach |
| `Decoder.ExpandingConcat` | native_client/ctcdecode/ctc_beam_search_decoder.cpp:54-74 | Dividing the frames over several calls makes no difference to which frames are expanded |
| `Selection.SumProbIsTotal` | native_client/ctcdecode/decoder_utils.cpp:7-39 | The cumulative probability of all classes, in any order, is the total of the frame |
| `Selection.SumProbAdds` | native_client/ctcdecode/decoder_utils.cpp:21-29 | The cumulative probability of two lists of classes is the sum of theirs, and that of one class its probability |
| `Hypotheses.MassRemains` | native_client/ctcdecode/ctc_beam_search_decoder.cpp:93-202 | A frame never loses all mass without a scorer, and with any scorer if the blank is offered |
| `Hypotheses.CutKeepsMass` | native_client/ctcdecode/ctc_beam_search_decoder.cpp:204-216 | Cutting the beam never loses all mass |
| `Decoder.DecoderState.Decode` | native_client/ctcdecode/ctc_beam_search_decoder.cpp:220-265 | Returns the best prefixes in order of final score, each with its labels, one increasing timestep per label, and its score. The assertion on the lengths holds whenever at least as many hypotheses have mass as results are returned; with cutoff_prob >= 1 and a beam that lost nothing it holds exactly then. For one result it always holds without a scorer or with cutoff_prob >= 1 |
| `Decoder.DecoderState.MakeOutputs` | native_client/ctcdecode/ctc_beam_search_decoder.cpp:252-262 | Labels, timesteps and confidence of the chosen prefixes; the length assertion fails exactly for prefixes without timesteps |
| `BeamShown.FirstHaveMass` | native_client/ctcdecode/ctc_beam_search_decoder.cpp:244-262 | Of prefixes sorted by scores that are positive where the masses are, the first n all have mass if and only if at least n hypotheses have mass |
| `BeamTime.TimelyAfter` | native_client/ctcdecode/path_trie.cpp:159-190 | While nothing is taken out of the beam and every prefix with mass keeps some on its blank side, exactly the prefixes with mass have timesteps |
| `Losses.DecodeFails` | native_client/ctcdecode/ctc_beam_search_decoder.cpp:254-262 | A run of two frames without a scorer, a beam that is never cut and three results asked for: the assertion on the lengths fails, because a doubled label is in the beam without mass |
| `Hypotheses.BlankIsNeverSkipped` | native_client/ctcdecode/ctc_beam_search_decoder.cpp:83-101 | For every scorer the blank class is never skipped |
| `Hypotheses.CutoffIsSmaller` | native_client/ctcdecode/ctc_beam_search_decoder.cpp:85-86 | The cutoff is the smaller of (lowest score times blank probability) and that divided by exp(beta) |
| `CutoffRule.FrameIsFull` | native_client/ctcdecode/ctc_beam_search_decoder.cpp:76-91 | What a decoder in any state makes of a frame when its beam is full is a frame the following rows speak of |
| `CutoffRule.FrameHasFullBeam` | native_client/ctcdecode/ctc_beam_search_decoder.cpp:76-91 | Such a frame has the non-negative masses, labels, floored probabilities and cutoff that the rules about the break need |
| `CutoffRule.SkippedIsWorthLess` | native_client/ctcdecode/ctc_beam_search_decoder.cpp:83-101 | With a fair scorer a skipped extension is worth less than what every prefix of the beam keeps by the blank alone. Fair: no factor above max(1, exp(beta)) (1 + 2^-126), or exp(beta) at least 2^126 |
| `CutoffRule.SkippedCannotSurvive` | native_client/ctcdecode/ctc_beam_search_decoder.cpp:83-216 | With a fair scorer: had the break not been taken, a sequence outside the beam that only a skipped visit reaches would not be among the beam_size survivors of the frame |
| `CutoffRule.KeepsMassIff` | native_client/ctcdecode/ctc_beam_search_decoder.cpp:97-149 | For every scorer: a prefix in the beam ends the frame with what it would have without the break if and only if the break skips neither a repeat of its last label that has mass nor an extension ending in it that is worth something; then its timesteps are the same too |
| `CutoffRule.BreakIsHarmless` | native_client/ctcdecode/ctc_beam_search_decoder.cpp:83-216 | If that holds for all prefixes of the beam and the scorer is fair, every choice of survivors is also one without the break, with the same masses and timesteps |
| `Losses.BreakLosesTheBest` | native_client/ctcdecode/ctc_beam_search_decoder.cpp:83-216 | A run of two frames with a beam of two, all classes offered and a scorer whose factors are all one: the transcript returned is worth less than another label sequence, whose mass the break skipped |
| `CutoffExact.SafeIffFair` | native_client/ctcdecode/ctc_beam_search_decoder.cpp:83-101 | Over all frames that sound decoders with this scorer make, any number of labels and all offered labels: skipped extensions are worth less than what the beam keeps if and only if the scorer is fair; hot-word boosts can make it unfair |
| `CutoffExact.LossyFrame` | native_client/ctcdecode/ctc_beam_search_decoder.cpp:155-185 | For every factor above the fair limit, a sound decoder with two prefixes, with timesteps and masses below their bounds, and a probability distribution of which all classes are offered and for which the break skips an extension that is worth as much as the other prefix keeps |
| `CutoffRuns.RunReaches` | native_client/ctcdecode/ctc_beam_search_decoder.cpp:60-217 | With one place, each label in a frame of its own and a frame of blank behind it: every run arrives at that label sequence alone, if no competitor at the probability floor outweighs a label on the way |
| `CutoffRuns.Reach` | native_client/ctcdecode/ctc_beam_search_decoder.cpp:54-218 | A new decoder fed these frames is in a valid state and holds that label sequence alone |
| `CutoffRuns.RunLoses` | native_client/ctcdecode/ctc_beam_search_decoder.cpp:83-185 | After every such run, for every label whose factor is above max(1, exp(beta)) (1 + 2^-125), a frame in which the break skips the label though its extension is worth more than all the sequence itself would have |
| `CutoffRuns.FirstFrameLoses` | native_client/ctcdecode/ctc_beam_search_decoder.cpp:83-185 | In particular the first frame of a new decoder with one place, for every factor above that limit |
| `CutoffRule.NeverRaisesIsFair` | native_client/ctcdecode/ctc_beam_search_decoder.cpp:177-184 | With alpha >= 0 and score plus boost at most 0 the condition holds |
| `Selection.FirstOf` | native_client/ctcdecode/decoder_utils.cpp:98-108 | Finds an element that none of the rest comes before, by score and then character |
| `Selection.PartialSort` | native_client/ctcdecode/ctc_beam_search_decoder.cpp:80-83 | A permutation whose first k are in order and before all others |
| `Selection.NthElement` | native_client/ctcdecode/ctc_beam_search_decoder.cpp:206-209 | A permutation in which nothing after position k comes before anything in front of it |
| `Selection.CutClasses` | native_client/ctcdecode/decoder_utils.cpp:21-29 | The length is the shortest at which the cumulative probability or the limit is reached |
| `Selection.FloorIs` | native_client/ctcdecode/decoder_utils.h:12-12 | What is added to every probability is 2^-126 |
| `Selection.ChooseClasses` | native_client/ctcdecode/decoder_utils.cpp:7-39 | Each class at most once, at least one; with cutoff_prob >= 1 all classes, sorted by falling probability if cutoff_top_n is below their number and in their own order otherwise; with less the most probable ones, sorted, as few as reach the cumulative probability or the limit |
| `DictionaryWalk.RewriteChangesNothing` | native_client/ctcdecode/path_trie.cpp:57-65 | For every dictionary: the branch that rewrites the automaton state of a node after a failed match writes the state it already has |
| `DictionaryWalk.StatesOkExpand` | native_client/ctcdecode/path_trie.cpp:54-90 | Every node carries the state its path leads to, with a restart at every final state, whatever the order of expansions and removals |
| `DictionaryWalk.AllowedDecomposes` | native_client/ctcdecode/path_trie.cpp:54-90 | For every dictionary: an allowed path is a sequence of entries, none of which a shorter entry begins, and an unfinished entry; the state remembers only the latter |
| `DictionaryWalk.DecomposesAllowed` | native_client/ctcdecode/path_trie.cpp:54-90 | The converse: every such sequence is allowed |
| `DictionaryWalk.DecomposesOnce` | native_client/ctcdecode/path_trie.cpp:54-90 | A label sequence decomposes into complete entries and an unfinished one in one way only |
| `DictionaryWalk.MatchedWholeIff` | native_client/ctcdecode/path_trie.cpp:75-86 | For every dictionary: the walk along each entry ends in the start state with that entry as the only decomposition, if and only if no entry begins another |
| `DictionaryWalk.HiddenEntry` | native_client/ctcdecode/path_trie.cpp:75-86 | With the entries 0 and 01 the second is refused by the walk: the restart at the final state hides it |
| `BeamSearch.PathsDecompose` | native_client/ctcdecode/path_trie.cpp:54-90 | Every path in the trie of a decoder decomposes in this way |
| `BeamSearch.AcceptsExactly` | native_client/ctcdecode/path_trie.cpp:54-65 | A one-label extension is accepted if and only if the extended path decomposes |
| `Vocabulary.SetupCharMap` | native_client/ctcdecode/scorer.cpp:61-74 | Maps each string to its label plus one, of equal strings the last |
| `Vocabulary.WordLabels` | native_client/ctcdecode/decoder_utils.cpp:139-164 | The labels of a word, with the space label behind it in word mode; refused exactly if some piece is not in the map |
| `Vocabulary.EntrySpellsWord` | native_client/ctcdecode/decoder_utils.cpp:139-164 | In word mode the strings of the labels of an entry, one after the other, are the word and the space |
| `Vocabulary.FillDictionary` | native_client/ctcdecode/scorer.cpp:319-329 | The entries are exactly those of the encodable words other than the three tokens for start, end and unknown word |
| `Vocabulary.SpaceEndsEntry` | native_client/ctcdecode/decoder_utils.cpp:158-160 | In word mode the space label is the last label of an entry and occurs nowhere else in it |
| `Vocabulary.WordEntriesArePrefixFree` | native_client/ctcdecode/decoder_utils.cpp:139-164 | In word mode a vocabulary without spaces gives prefix-free entries |
| `Vocabulary.ByteEntry` | native_client/ctcdecode/decoder_utils.cpp:67-76 | In byte mode the entry of a word is its bytes |
| `Vocabulary.CodePointEntriesArePrefixFree` | native_client/ctcdecode/decoder_utils.cpp:139-164 | In byte mode a vocabulary of single code points gives prefix-free entries |
| `ByteMode.WordsAreMatchedWhole` | native_client/ctcdecode/decoder_utils.cpp:139-164 | In word mode with words without spaces the walk matches every word as a whole |
| `ByteMode.InvalidBytesUnreachable` | native_client/ctcdecode/scorer.cpp:216-221 | If the entries are single code points, the assertion on invalid bytes is not reached for any node of any decoder trie, and a scoring boundary is exactly where the last code point is complete |
| `ByteMode.VocabularyKeepsBytesValid` | native_client/ctcdecode/scorer.cpp:216-221 | The same from the vocabulary: words that are single code points, looked up byte by byte, turned into automaton labels and these into trie labels |
| `Scoring.WordTaken` | native_client/ctcdecode/path_trie.cpp:143-157 | The backward walk takes off exactly the last word of the split at spaces |
| `Scoring.GraphemeTaken` | native_client/ctcdecode/path_trie.cpp:113-127 | The backward walk takes off exactly the last code point |
| `Scoring.SplitOnIs` | native_client/ctcdecode/path_trie.cpp:143-157 | The split of a path at spaces that the backward walk follows loses nothing: joined with spaces it is the path, and no piece has a space |
| `Scoring.LastWords` | native_client/ctcdecode/scorer.cpp:291-317 | The last n words of a path, joined with spaces, are the end of the path behind a space or the whole path |
| `Scoring.GraphemesJoin` | native_client/ctcdecode/path_trie.cpp:113-127 | The code points of a path laid end to end are the path |
| `Scoring.GraphemesAreSplit` | native_client/ctcdecode/scorer.cpp:277-289 | Walking back by code points agrees with splitting the whole text into code points |
| `Scoring.MakeNgram` | native_client/ctcdecode/scorer.cpp:291-317 | At most max_order units, the last ones of the path in order, and all of them if there are fewer; joined with spaces, or in byte mode laid end to end, they are the end of the path, from the beginning of a unit on |
| `Scoring.DistanceOfSuffix` | native_client/ctcdecode/path_trie.cpp:129-141 | The distance to the last code point boundary depends only on what follows that boundary |
| `Scoring.BoundaryIsComplete` | native_client/ctcdecode/scorer.cpp:200-225 | For every path whose bytes begin a well-formed UTF-8 text (section 4 of RFC 3629): a scoring boundary is exactly where the last code point is complete, and the assertions on invalid bytes are not reached |
| `Utf8.SplitIntoCodepoints` | native_client/ctcdecode/decoder_utils.cpp:49-65 | The pieces of the unique split; the empty string gives one empty piece |
| `Utf8.SplitIs` | native_client/ctcdecode/decoder_utils.cpp:49-65 | The pieces concatenate to the string and are cut exactly before the bytes that do not continue a code point |
| `Utf8.SplitUnique` | native_client/ctcdecode/decoder_utils.cpp:49-65 | There is no other such cut |
| `Utf8.CodePointsArePrefixFree` | native_client/ctcdecode/decoder_utils.h:93-96 | No well-formed code point begins another |
| `AlphabetModel.NextEntry` | native_client/alphabet.cc:110-127 | Reads key, length and bytes of one entry, or fails exactly if some of it is missing |
| `AlphabetModel.LowByteFirst` | native_client/alphabet.cc:76-92 | Sizes, keys and lengths are stored low byte first |
| `AlphabetModel.EntryLayout` | native_client/alphabet.cc:80-92 | An entry is its key, its length and its bytes, in this order |
| `AlphabetModel.Alphabet.Serialize` | native_client/alphabet.cc:72-96 | Number of entries, then key, length and bytes of each, in any iteration order of the map, cut to 16 bits as the program does |
| `AlphabetModel.Alphabet.Deserialize` | native_client/alphabet.cc:98-138 | The exact new state for every buffer, including the entries kept when reading fails |
| `AlphabetModel.ReadsBack` | native_client/alphabet.cc:110-137 | Reading what was written gives the entries back; with any byte missing it fails |
| `AlphabetModel.DeserializeInvertsSerialize` | native_client/alphabet.cc:72-138 | Reading recovers both maps, the size and the space label, whatever the iteration order was |
| `AlphabetModel.StrictPrefixRejected` | native_client/alphabet.cc:98-138 | Every strict beginning of a serialized alphabet is rejected |
| `AlphabetModel.WriteAndRead` | native_client/alphabet.cc:72-138 | The imperative round trip: the alphabet read is the alphabet written |
| `AlphabetModel.CanEncode` | native_client/alphabet.cc:147-156 | True exactly if every code point is in the alphabet |
| `AlphabetModel.Encode` | native_client/alphabet.cc:202-210 | The labels of the code points; aborts exactly if one is unknown |
| `AlphabetModel.Decode` | native_client/alphabet.cc:182-190 | The strings of the labels in order; aborts exactly if a label is unknown |
| `AlphabetModel.OncePerLabel` | native_client/alphabet.cc:48-66 | Numbering labels in order gives maps that lead back from each string to its label |
| `AlphabetModel.DecodeInvertsEncode` | native_client/alphabet.cc:182-210 | Decoding the encoding of any encodable text gives the text |
| `AlphabetModel.EncodeInvertsDecode` | native_client/alphabet.cc:182-210 | Encoding the decoding of labels gives the labels if and only if there are any: the empty text does not encode |
| `Permute.ComputeGcd` | native_client/getopt_win.h:160-173 | The loop computes the gcd |
| `Permute.GcdDivides` | native_client/getopt_win.h:160-173 | It divides both numbers |
| `Permute.GcdGreatest` | native_client/getopt_win.h:160-173 | No common divisor is greater |
| `Permute.PosDistinct` | native_client/getopt_win.h:195-209 | Within one cycle no position is visited twice |
| `Permute.PosCloses` | native_client/getopt_win.h:195-209 | After the cycle length the walk is back at its start |
| `Permute.SeenIsClass` | native_client/getopt_win.h:195-209 | A cycle visits exactly one residue class modulo the gcd |
| `Permute.RotateCycle` | native_client/getopt_win.h:196-208 | One cycle of swaps settles exactly its positions |
| `Permute.PermuteArgs` | native_client/getopt_win.h:180-210 | The two blocks are exchanged in place, the order within each and everything outside kept, for all block lengths |
| `Getopt.ScanPermutes` | native_client/getopt_win.h:453-527 | Options and non-options together are a permutation of what was scanned |
| `Getopt.NonOptionsAre` | native_client/getopt_win.h:474-475 | Every argument counted as a non-option is empty, does not begin with a dash, or is a lone dash that is not a declared option |
| `Getopt.OptionsAre` | native_client/getopt_win.h:474-527 | Every argument counted as an option begins with a dash or is the argument of the option before it; a double dash is the last, or such an argument |
| `Getopt.StopIs` | native_client/getopt_win.h:506-527 | The scan stops behind the first double dash that is not the argument of an option, or at the end |
| `Getopt.FinishedIsParted` | native_client/getopt_win.h:453-527 | Both in the final argument vector |
| `Getopt.LayoutPermuted` | native_client/getopt_win.h:496-502 | Exchanging the blocks puts the options met since in front of the non-options skipped |
| `Getopt.FinishedPermutes` | native_client/getopt_win.h:453-527 | The final argument vector is a permutation of the original |
| `Getopt.Scanner.constructor` | native_client/getopt_win.h:450-452 | A fresh scan has met nothing |
| `Getopt.Scanner.SkipNonOptions` | native_client/getopt_win.h:475-506 | Steps over non-options, keeping the order of both kinds |
| `Getopt.Scanner.MoveBehind` | native_client/getopt_win.h:496-502 | Moves the skipped non-options behind the options met since |
| `Getopt.Scanner.Finish` | native_client/getopt_win.h:456-474 | The vector ends up in its final order and optind at the first non-option |
| `Getopt.Scanner.Call` | native_client/getopt_win.h:453-527 | One call handles the next option or ends the scan with the final order |
| `Getopt.Scanner.Scan` | native_client/getopt_win.h:453-527 | All calls together, in terms of the characters of the arguments: options, which begin with a dash, with their arguments first, in their order; from optind on non-options, which do not, in theirs; the first double dash that is not an argument ends the options and all behind it is unmoved; nothing is lost |
| `Bhiksha.ChopBits` | native_client/kenlm/lm/bhiksha.cc:32-46 | The smallest number of bits with the lowest change in size, in 64-bit arithmetic |
| `Bhiksha.ChangeIsExact` | native_client/kenlm/lm/bhiksha.cc:38-39 | In range, 64-bit arithmetic gives the exact change |
| `Bhiksha.ChangeIsInSize` | native_client/kenlm/lm/bhiksha.cc:38-39 | The exact change is the difference in size, table entries of 64 bits and inline bits of all records together, to whole pointers |
| `Bhiksha.SmallestSize` | native_client/kenlm/lm/bhiksha.cc:32-46 | In range, fewer bits changed means a smaller size |
| `Bhiksha.RequiredBitsFit` | native_client/kenlm/lm/bhiksha.cc:33-33 | The required bits are the least number that holds the largest pointer |
| `Bhiksha.TableReads` | native_client/kenlm/lm/bhiksha.hh:77-84 | In a complete table an entry is at or below an index exactly if the high part of that pointer is at least the number of the entry |
| `Bhiksha.UpperBound` | native_client/kenlm/lm/bhiksha.hh:81-81 | First element above the value |
| `Bhiksha.DontBhiksha.WriteNext` | native_client/kenlm/lm/bhiksha.hh:52-54 | Plain pointers: appends the value |
| `Bhiksha.DontBhiksha.ReadNext` | native_client/kenlm/lm/bhiksha.hh:46-50 | Plain pointers: reads the pair back |
| `Bhiksha.ArrayBhiksha.constructor` | native_client/kenlm/lm/bhiksha.cc:74-79 | A new table has as many entries as high parts can occur; in range no other permitted number of inline bits makes table and records smaller |
| `Bhiksha.ArrayBhiksha.WriteNext` | native_client/kenlm/lm/bhiksha.hh:97-101 | Writing the next pointer keeps the table: each entry is the first index whose high part reaches it |
| `Bhiksha.ArrayBhiksha.FinishedLoading` | native_client/kenlm/lm/bhiksha.cc:81-90 | Accepts if and only if the last pointer has the high part of the largest; then the table is complete |
| `Bhiksha.ArrayBhiksha.ReadNext` | native_client/kenlm/lm/bhiksha.hh:76-95 | Reads back exactly the pointers written, and the range is never negative |
| `Bhiksha.StoreAndRead` | native_client/kenlm/lm/bhiksha.hh:32-101 | The compressed form refines the plain one: for all nondecreasing pointers both read the same |
| `ExecutionPlan.PushBackIfNotPresent` | native_client/tflitemodelstate.cc:50-56 | Appends unless present |
| `ExecutionPlan.VisitNode` | native_client/tflitemodelstate.cc:76-85 | The loop over the outputs of one node: if the tensor is among them, the node goes in front and its inputs into the frontier |
| `ExecutionPlan.VisitTensor` | native_client/tflitemodelstate.cc:70-86 | All producers of one tensor are put in front and their inputs into the frontier |
| `ExecutionPlan.FindParentNodeIds` | native_client/tflitemodelstate.cc:63-90 | If no dependency of the tensor leads back to itself the walk ends, lists exactly the nodes the tensor depends on, and every occurrence comes after each node that feeds it, although nodes may be listed and tensors visited repeatedly; the rest of the graph does not matter |
| `ExecutionPlan.WalkNeverEnds` | native_client/tflitemodelstate.cc:69-87 | Otherwise the frontier of a walk never runs empty |
| `ExecutionPlan.FirstIterations` | native_client/tflitemodelstate.cc:66-87 | The first iterations of the loop, on any graph, are such a walk, and list only dependencies, each after those of its inputs that are no longer to be visited: with a dependency that leads back to itself the loop is not done after any number of them |
| `ExecutionPlan.PathsAreShort` | native_client/tflitemodelstate.cc:58-62 | In an acyclic graph no dependency path is longer than the number of nodes |
| `ExecutionPlan.RankOf` | native_client/tflitemodelstate.cc:58-62 | Acyclicity gives the numbering of tensors that makes the walk end |
| `ExecutionPlan.WalkEnds` | native_client/tflitemodelstate.cc:63-90 | An empty frontier means the list is a schedule of exactly the dependencies |
| `Windows.Filling` | native_client/deepspeech.cc:112-135 | Elements that do not fill the buffer complete no window |
| `Windows.Filled` | native_client/deepspeech.cc:112-135 | Elements that fill it exactly complete one window, and shifting leaves what overlaps with the next |
| `Windows.CountUnique` | native_client/deepspeech.cc:112-135 | The number of complete windows of a stream is determined by its length |
| `Windows.Tiles` | native_client/deepspeech.cc:226-243 | Windows that do not overlap, and the rest, are the stream |
| `Streaming.StreamingState.constructor` | native_client/deepspeech.cc:418-450 | A new stream starts with n_context zero frames in the feature buffer |
| `Streaming.StreamingState.ProcessBatch` | native_client/deepspeech.cc:245-266 | Runs the model once on the batch, whose length is the step count times the length of a timestep, hands its output to the decoder, and counts the steps |
| `Streaming.StreamingState.ProcessMfccWindow` | native_client/deepspeech.cc:226-243 | Everything fed is buffered or processed in full batches, in order |
| `Streaming.StreamingState.PushMfccBuffer` | native_client/deepspeech.cc:206-224 | Everything fed is buffered or processed in windows one frame apart, in order |
| `Streaming.StreamingState.ProcessAudioWindow` | native_client/deepspeech.cc:163-171 | Pushes the features of the window |
| `Streaming.StreamingState.FeedAudioContent` | native_client/deepspeech.cc:112-135 | After any feed all three buffers and both states are functions of all the audio fed so far |
| `Streaming.SamplesKept` | native_client/deepspeech.cc:118-121 | Every sample is kept as the number whose 32768-fold it is, so that 16-bit samples lie in [-1, 1) |
| `Streaming.StreamingState.IntermediateDecode` | native_client/deepspeech.cc:137-141 | The transcript is that of all the audio fed so far, however it was divided over calls |
| `Streaming.StreamingState.StateIsFunctionOfAudio` | native_client/deepspeech.cc:112-135 | The whole state between calls is a function of the audio alone |
| `Streaming.StreamingState.FeedInPieces` | native_client/deepspeech.cc:112-135 | Any division of the audio over calls ends in the state of a single call |
| `Streaming.StreamingState.AddZeroFrames` | native_client/deepspeech.cc:190-195 | Adds n_context empty frames |
| `Streaming.StreamingState.FinalizeStream` | native_client/deepspeech.cc:173-188 | The model has then been run on exactly the batches of the finished stream; the step counts of the calls add up to the number of feature frames, and all but the last are n_steps |
| `Streaming.StepsAddUp` | native_client/deepspeech.cc:173-188 | Step counts that fit the batches of a finished stream add up to its feature frames, all but the last full |
| `Streaming.LastBatch` | native_client/deepspeech.cc:184-187 | The last batch is a whole number of timesteps, and that is the step count given with it |
| `Streaming.FinalFeatsArePadded` | native_client/deepspeech.cc:173-195 | The features of a finished stream are its frames with n_context empty ones on either side |
| `Streaming.OneTimestepPerFrame` | training/deepspeech_training/train.py:58-75 | A finished stream has one timestep per frame, and timestep t is frames t - n_context to t + n_context with zeros outside: the windows of training |
| `Streaming.TimestepValue` | training/deepspeech_training/train.py:58-75 | Number by number: place k of timestep t holds frame t - n_context + k, or zero outside the utterance |
| `Streaming.BatchesAreTimesteps` | native_client/deepspeech.cc:226-243 | The batches are those timesteps in order, none lost, repeated or split, all but the last full |

## Left out

- Rounding of floats and doubles, and the overflow behaviour of `log_sum_exp`; the model is exact.
- Decoder.DecoderState.Decode: after the beam was cut, a prefix without mass may or may not have timesteps left from before; there the contract gives a sufficient condition in terms of the hypotheses, and the exact one only in terms of the nodes chosen.
- BeamSearch.OutputsAreTop: a transcript without mass may have timesteps left from before; they are only known to be well formed.
- Decoder.OrderListed: without a scorer and with a beam of exactly its size, the order of the prefixes is taken to be any; after a cut the library leaves it open.
- TrieOps.Trie.Remove: frees the node before the walk to its parent instead of at its end; nothing reads the node in between.
- Selection.PartialSort: the library algorithm is modelled by selection; only its contract is that of the program.
- Selection.NthElement: the same.
- CutoffExact.SafeIffFair: its frames are those of states that satisfy the invariant of the decoder; that each of these states is reached by a run is not claimed. CutoffRuns.RunLoses has runs, for paths that a beam of one place can reach and factors above max(1, exp(beta)) (1 + 2^-125).
- CutoffRule.BreakIsHarmless: the condition is sufficient; the survivors can also agree by chance when a prefix loses mass.
- Bhiksha.ChopBits: a shift by all 64 bits, which the language leaves undefined, is modelled as giving 0.
- Bhiksha.StoreAndRead: bit packing into bytes is modelled as a sequence of inline values.
- Vocabulary.FillDictionary: OpenFST epsilon removal, determinization and minimization are represented by the automaton they promise (`Recognises`).
- AlphabetModel.LowByteFirst: the program writes the memory of its integers; a little-endian host is assumed.
- AlphabetModel.DeserializeInvertsSerialize: holds for alphabets that 16-bit sizes, labels and lengths can hold.
- Log-probability fields that the search does not read (`log_prob_c`, `approx_ctc`).
- KenLM scoring, out-of-vocabulary scores and hot-word lookup: folded into the functions of the scorer.
- The link between the trie of the decoder and the strings passed to the language model beyond the units of `Scoring`.
- Batch decoding over a thread pool, and the stream interface in C.
- Long options, bundled short options and error messages of getopt.
- The remaining binary format and the other data structures of KenLM.
- Reading an alphabet from a file, and the byte alphabet as a class.
- TFLite and TensorFlow loading and inference, MFCC computation.
- Training, importers, clients and language bindings.
