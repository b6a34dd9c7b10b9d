# Input method engines and codecs, verified

This project models, in Dafny, the parts of the repository whose logic is hard to see
through by reading, and proves what they are for.

**Bamboo core** (`Bamboo*.dfy`), the Vietnamese composition engine.  A composition is a list of
entries: letters, and mark and tone effects that point at a letter.  A key goes through the last
word, the last syllable, a target search, undo or fallback, a virtual horn and a tone refresh
that retargets an entry in place.  Proved over every run: typed keys are conserved, letters
behave like a stack, effects point at letters of the same composition, also for methods that make
letters of their own, the consonant-vowel split and the syllable cut lose nothing, and a restored
word shows its raw keys.  Where the code falls short of that, a run shows it (`BambooLost`,
`BambooDrop`) and the exact condition is proved.  Proved of every key: which rule it applies and
to which letter, what the text shows then, when it becomes a letter instead, and on which vowel
the tone sits (`BambooPlacement`, `BambooFits`, `BambooAnswers`, `BambooLetters`, `BambooKeyText`,
`BambooMarks`, `BambooUndo`, with words typed on the tables of the source in `BambooTyping`);
`BambooGrammar` says exactly which syllables are accepted.  `BambooEngine` is the
class with the fields of the source, `BambooLoops`, `BambooFlattener`, `BambooSpelling` hold its
loops, `BambooHeap` the update through a pointer; each is proved against the functions the lemmas
are about.  The character tables, the case mapping, the spelling tables and the rules of an input
method are parameters; `BambooTables` shows that the tables of the source meet the assumptions
made of them.

**Rule-based transliterator** (`Regex`, `Prefixalize`, `PatternText`, `Captures`, `RulesData`,
`RulesTransform`, `RulesRewrite`, `RulesCommit`, `RulesDelimiter`, `RulesSearch`, `RuleEngine`,
`RuleEngineCommit`, `RuleEngineRaw`, `RuleEngineWhole`, `RuleAdapter`).  Patterns are
syntax trees with a match relation on positions of a text and a second one that also gives the
capture groups.  Proved: Prefixalize is exactly prefix closure and its character scanner writes
exactly that expansion; the rule recovered by group arithmetic is the one that matched, and the
text it writes is given by position; the prediction is exact; exactly when an early commit loses
nothing, for a context and for the engine with its snapshot; the delimiter never leaves the
engine; the history snapshot is faithful, across Backspaces too; host and engine agree after every
event.

**Codecs** (`Bytes`, `WebSocket`, `Pak`).  Reassembly of WebSocket messages does not depend on
how the socket cuts the stream; pak files make the round trip in both directions, and exactly the
well-formed ones come back byte for byte.  What is written is given byte by byte.

## Where code and comments differ

- `refreshLastToneTarget` (tools/telex-oracle/bamboo-core/bamboo_utils.go:505-507) sets the
  target of the last tone to nil when the vowel part is not nil but no vowel can carry the tone.
  That is so exactly for a bare "qu" that has a tone (`BambooQu.DropsExactlyBehindQu`); whoever
  types no q never gets there (`BambooQu.WithoutQDropsNothing`).  `BambooDrop` is a run that does,
  and in which a later backspace cuts the tone and leaves the letter.  Its method is unusual: its
  super key, whose first rule the uow shortcut uses as a horn (bamboo.go:153-166), also sets a
  tone.  No run of a method of input_method_def.go is known to drop a tone; that none with a q
  does is not proved.
- Typing the key of an Appending rule twice (bamboo_utils.go:405-417) records no key.
  `BambooRuns.Lost` counts these, and conservation holds if and only if it is zero; "ww" with a
  rule that makes ư of w loses one (`BambooLost`).
- The comments in rules_data.cc describe one anchored pattern per rule.  Since `from + "$"` is
  concatenated as text, a rule with a top-level `|` is anchored in its last alternative only
  (`RulesData.AppendEnd`).  For such a rule an early commit can change what the next key does
  (`RulesCommit.UnanchoredCommitDiffers`), exactly when a rule matches inside the context
  (`RulesCommit.CommitIsHarmlessIff`).  No rule of def/*.cc has one: every bar there is in a group,
  in a class or escaped.
- The first commit test (engine.cc:104) does not look at the snapshot.  It can commit a text of
  which the snapshot would still have made something else (`RuleEngineCommit.SnapshotIsLost`);
  `RuleEngineCommit.EngineCommitIsLosslessIff` says exactly when.
- Two rows of vowels can answer for one syllable: `isValidCVC` looks up both matrices on their own
  (spelling.go:111-119), so "băk" is accepted though no vowel row allows both its neighbours
  (`BambooGrammar.RowsMayDiffer`).
- A key with an empty text that the prune pattern matches would leave a snapshot behind an empty
  ambiguous text (engine.cc:80-91); `RuleEngineRaw.SnapshotBehindNothingIff` says exactly when.
- A rule of the form ^(.*)… begins a match with everything, so vi_telex and vi_vni predict every
  nonempty line and never commit by themselves (`RuleEngineWhole`).  A `^` further inside a
  pattern, as in bn_phone, gu_phone and kn_phone, never matches, and its prefix pattern predicts
  matches that cannot come (`Prefixalize.InnerAnchorIsNotClosed`).
- The prefix pattern of a rule with a bare `.` can miss prefixes, as for the lone dot
  (`Prefixalize.BareDotIsNotClosed`).  bn_phone and gu_phone have three such rules each, with
  U+001D followed by `.D`, `a.D` and `aa.D` (def/bn_phone.cc:573, def/gu_phone.cc:587).
- `RestoreLastWord(true)` types the virtual entries of the last word, too (bamboo.go:207-209).
  Their zero key has no rules and becomes a letter that shows and records nothing but stays in
  the composition (`BambooRetype.RetypeKeepsInvIff`).
- WebSocket: reserved opcodes are skipped and their data dropped, and the mask bit and reserved
  bits of received frames are ignored, where RFC 6455 asks to fail the connection.

## Model

| member | source | states |
|---|---|---|
| BambooRuns.KeystrokesRecorded | tools/telex-oracle/bamboo-core/bamboo.go:117-151 | for every method and every run of keys, Vietnamese or English mode: the invariant holds, the English text of the composition has one key per press less the lost ones, and it is the typed text if and only if no key was a raw double |
| BambooStack.KeystrokesConserved | tools/telex-oracle/bamboo-core/bamboo.go:117-195 | for methods without Appending rules no run loses a key: the English text of the whole composition is the typed text with its case |
| BambooLost.TwiceLosesOne | tools/telex-oracle/bamboo-core/bamboo_utils.go:404-413 | a method with the single rule w→ư and the keys "ww": one of the two keys is lost and one is recorded |
| BambooRuns.KeyIsRecorded | tools/telex-oracle/bamboo-core/bamboo.go:183-195 | one key in any mode appends exactly itself to the recorded text unless it repeats the key of an Appending rule, and keeps the invariant |
| BambooGenerators.KeyTransformationsShape | tools/telex-oracle/bamboo-core/bamboo_utils.go:402-468 | what every branch has in common, raw doubles apart: if it yields entries (target, virtual mark, uô rewrite, undo), they record the key exactly once, add at most one letter, the key itself, and decorate only letters of the syllable; what each branch does to the text is in the rows of BambooKeyText, BambooMarks and BambooUndo |
| BambooGenerators.RewriteShape | tools/telex-oracle/bamboo-core/bamboo_utils.go:439-460 | the uô rewrite, when it fires, yields effects that all have a letter of the syllable as target, and records the key once |
| BambooGenerators.UndoShape | tools/telex-oracle/bamboo-core/bamboo_utils.go:342-387 | undo entries are virtual, record nothing, add no letter and decorate only letters of the composition |
| BambooGenerators.FallbackShape | tools/telex-oracle/bamboo-core/bamboo_utils.go:470-485 | the fallback records the key once, and without an Appending rule adds just its letter |
| BambooGenerators.ShortcutShape | tools/telex-oracle/bamboo-core/bamboo.go:153-166 | the uow shortcut records nothing, adds no letter and decorates only letters of the syllable |
| BambooKeyText.ToneKeyShows | tools/telex-oracle/bamboo-core/bamboo_utils.go:315-339 | for every reachable state and processed key that is no raw double: if the first tone rule of the key that would change the Vietnamese text of the last syllable aims at a letter, then the new composition is the old one with exactly one more entry, of that rule and key on that letter; the text has the same letters, shows that letter with that tone and every other letter as before |
| BambooMarks.MarkKeyShows | tools/telex-oracle/bamboo-core/bamboo_utils.go:419-430 | if no tone rule works and a mark rule of the key fits the last entry any fits, then an entry of that rule and key on that letter follows the old entries, the syllable with it is valid, no letter is added, and the text shows that letter with that mark unless a second mark of the key goes to it |
| BambooUndo.SecondMarkShows | tools/telex-oracle/bamboo-core/bamboo_utils.go:431-437 | a mark that leaves the syllable unfinished takes a second rule of the key along if one fits then: the text shows both marks on their letters |
| BambooMarks.KeyIsLetterIff | tools/telex-oracle/bamboo-core/bamboo_utils.go:402-485 | a processed key adds a letter to the text if and only if it is no raw double, no rule fits and nothing is rewritten; then it adds exactly one, which is the key itself if it undoes effects or no rule makes a letter of it, else the letter of the first such rule, with its case |
| BambooUndo.RewriteShows | tools/telex-oracle/bamboo-core/bamboo_utils.go:439-460 | where ươ is rewritten the first vowel reads without a mark, the letter of the rule reads with its mark, and no letter is added |
| BambooUndo.UndoShowsMarks | tools/telex-oracle/bamboo-core/bamboo_utils.go:342-387 | a key that undoes: the letters that its mark rules aim at read without a mark, every other letter keeps its mark |
| BambooUndo.UndoShowsTones | tools/telex-oracle/bamboo-core/bamboo_utils.go:342-387 | and, before the refresh moves tones, the vowels that its tone rules aim at have no tone, every other vowel keeps its tone |
| BambooUndo.DoubledKeyShows | tools/telex-oracle/bamboo-core/bamboo_utils.go:404-417 | a key typed twice makes the letter it had become show the key again, and adds no letter |
| BambooFits.TargetIsFit | tools/telex-oracle/bamboo-core/bamboo_utils.go:292-340 | findTarget answers with a rule and a letter if and only if they fit: the first tone rule that would change the text, at its place and unless it clears nothing, or, when no tone rule would, the first mark rule for the last entry that any fits; mark rules must change the text and leave a valid syllable |
| BambooFits.ResultIs | tools/telex-oracle/bamboo-core/bamboo_utils.go:333-336 | what the test for a clearing tone key looks at is the result of the letter it aims at |
| BambooAnswers.FittingRuleAdds | tools/telex-oracle/bamboo-core/bamboo_utils.go:419-430 | a tone rule that fits, or a mark rule that completes the syllable or after which nothing fits, is all that the key adds before the refresh |
| BambooAnswers.SecondRuleAdds | tools/telex-oracle/bamboo-core/bamboo_utils.go:427-437 | a mark that leaves the syllable unfinished, with a second rule that fits then, adds the rule and a virtual copy of the second |
| BambooAnswers.RewriteAdds | tools/telex-oracle/bamboo-core/bamboo_utils.go:439-460 | with nothing that fits, ưo or ươ in the text, and a rule that fits another letter once the first vowel has lost its mark, the key adds exactly that loss and that rule |
| BambooLetters.UndoAdds | tools/telex-oracle/bamboo-core/bamboo_utils.go:461-467 | with nothing that fits or is rewritten, the key adds virtual entries that clear exactly the tones and marks its rules aim at, if there are any, and itself as a letter |
| BambooLetters.LetterAdds | tools/telex-oracle/bamboo-core/bamboo_utils.go:470-485 | otherwise it adds its letter, one virtual letter for each its rule brings along, and the missing horn of the uow shortcut |
| BambooLetters.UhOIff | tools/telex-oracle/bamboo-core/bamboo_utils.go:390 | the text matches (ưo|ươ) exactly if it is some text, then ưo or ươ, then some text |
| BambooLetters.UOhTailIff | tools/telex-oracle/bamboo-core/bamboo_utils.go:389 | the text matches (uơ|ưo)\p{L}+ exactly if uơ or ưo stands in it with a letter behind |
| BambooAnswers.RulesAreOfKey | tools/telex-oracle/bamboo-core/bamboo.go:99-107 | the rules consulted are exactly those of the method with this key, in their order |
| BambooTyping.AsShowsAcute | tools/telex-oracle/bamboo-core/bamboo_utils.go:392-425 | on the tables of the source, the keys "as" show "á" |
| BambooTyping.LoanjShowsDot | tools/telex-oracle/bamboo-core/bamboo_test.go:88-90 | the keys "loanj" show "loạn" in either style: closed, the second vowel |
| BambooTyping.HoasFollowsStyle | tools/telex-oracle/bamboo-core/bamboo_utils.go:107-133 | the keys "hoas" show "hóa" in the standard style and "hoá" in the other |
| BambooSteps.SyllableStep | tools/telex-oracle/bamboo-core/bamboo.go:142-151 | a key grows the syllable behind its old entries, which change in nothing but the target of the last tone, and records the key once or not at all for a raw double |
| BambooSteps.RefreshShape | tools/telex-oracle/bamboo-core/bamboo_utils.go:498-524 | the tone refresh changes no entry but the last tone that has a target, and of it only the target, to a letter of the syllable or to nothing; it adds only virtual tone entries |
| BambooStack.KeyPushes | tools/telex-oracle/bamboo-core/bamboo.go:142-195 | without Appending rules the toneless, markless, lower-case text after a key is the text before, or that text with the base letter of the key pushed |
| BambooBackspace.BackspacePops | tools/telex-oracle/bamboo-core/bamboo.go:219-240 | a backspace pops exactly the last letter, or none exactly when entries follow a letter that ends a word; without refresh the fully marked text of all other letters is unchanged; the invariant stays |
| BambooBackspace.TextPopped | tools/telex-oracle/bamboo-core/bamboo.go:229-235 | dropping the last letter and the effects on it removes one character from the text of every non-English mode and changes no other |
| BambooBackspace.BackspaceStaysPlain | tools/telex-oracle/bamboo-core/bamboo.go:219-240 | a backspace never creates raw marks or letters whose key differs from what they show |
| BambooOps.BackspacePopsIff | tools/telex-oracle/bamboo-core/bamboo.go:219-240 | for methods without virtual letters, after any run of keys, backspaces and restores: a backspace pops exactly one letter, or none exactly when the last letter cannot be processed and effects stand behind it |
| BambooOps.BackspaceAlwaysPops | tools/telex-oracle/bamboo-core/bamboo.go:219-240 | with tones fixed to their first place, or in any run none of whose refreshes drops a tone, every effect has a target and a backspace pops exactly one letter of a nonempty text |
| BambooOps.FixedTonesDropNothing | tools/telex-oracle/bamboo-core/bamboo_utils.go:498-524 | without free tone marking no refresh of any run drops a tone |
| BambooQu.DropsExactlyBehindQu | tools/telex-oracle/bamboo-core/bamboo_utils.go:498-524 | a refresh drops a tone if and only if tone marking is free, the syllable is valid and has a tone, and its letters are q, u and then no vowel (vowel words of at most three letters) |
| BambooQu.WithoutQDropsNothing | tools/telex-oracle/bamboo-core/bamboo_utils.go:498-524 | a run of keys none of which is a q, with any backspaces and restores between them, drops no tone, every effect keeps a target and no letter is a q; also for methods with letter rules (none of which makes a q) |
| BambooQu.BackspaceWithoutQPops | tools/telex-oracle/bamboo-core/bamboo.go:219-240 | so after every such run a backspace pops exactly one letter of a nonempty text |
| BambooQu.ShippedVowelsAreShort | tools/telex-oracle/bamboo-core/spelling.go:19-28 | the vowel words of the shipped spelling have at most three letters |
| BambooDrop.BackspaceMisses | tools/telex-oracle/bamboo-core/bamboo_utils.go:498-524 | a run on the tables and the spelling of the source, with a super key that also sets a tone: a refresh drops a tone, and a later backspace pops no letter though there is one |
| BambooDrop.Keys | tools/telex-oracle/bamboo-core/bamboo.go:142-166 | the composition of that run after its keys, and the key whose refresh drops the tone |
| BambooOps.RunsKeepShape | tools/telex-oracle/bamboo-core/bamboo.go:183-240 | for every method without virtual letters, Telex 2 and its like included: the pointer shape and the separation of words hold after every run of keys, backspaces and restores, and no letter is virtual |
| BambooOps.RunsKeepInvariant | tools/telex-oracle/bamboo-core/bamboo.go:183-240 | without Appending rules the letters also stay plain over every such run |
| BambooVisible.KeyKeepsVisible | tools/telex-oracle/bamboo-core/bamboo.go:183-195 | a key, in any mode and through any branch, never makes a virtual letter unless the method has appended rules |
| BambooVisible.BackspaceKeepsVisible | tools/telex-oracle/bamboo-core/bamboo.go:219-240 | nor does a backspace, with or without refresh |
| BambooVisible.RestoreKeepsVisible | tools/telex-oracle/bamboo-core/bamboo.go:197-211 | nor does breaking the last word into its keys |
| BambooOps.KeyKeepsTargets | tools/telex-oracle/bamboo-core/bamboo_utils.go:498-507 | after a key every effect has a target if and only if it had before and the refresh does not meet a vowel part without a vowel for the tone (the exact case in which the code sets the target to nil) |
| BambooOps.TargetedPops | tools/telex-oracle/bamboo-core/bamboo.go:224-227 | when every effect has a target, the entry cut behind a word is the letter itself |
| BambooRestore.RestoreExposesKeys | tools/telex-oracle/bamboo-core/bamboo.go:197-211 | after RestoreLastWord(false) the Vietnamese text of the last word is what the English text was before, and the word boundary computed on the rewritten composition is the same |
| BambooRestore.BrokenText | tools/telex-oracle/bamboo-core/bamboo_utils.go:487-496 | broken into plain letters, a composition shows in Vietnamese mode what it showed in English mode |
| BambooRestore.LastWordEndsText | tools/telex-oracle/bamboo-core/bamboo.go:86-97 | in every mode the text of the last word ends the full text |
| BambooRestore.BehindSpaceEndsText | tools/telex-oracle/bamboo-core/bamboo.go:86-93 | where no effect reaches over the last space, the text asked for behind it ends the Vietnamese text |
| BambooRetype.RetypeKeepsKeys | tools/telex-oracle/bamboo-core/bamboo.go:205-210 | RestoreLastWord(true) keeps the recorded keys, in every state and with any virtual entries in the word (no Appending rules, keys in lower case) |
| BambooRetype.RetypeKeepsInvIff | tools/telex-oracle/bamboo-core/bamboo.go:205-210 | it keeps the invariant if and only if the last word has no virtual entry: each of those is typed as the zero key and leaves a letter without a key |
| BambooRetype.RetypedWord | tools/telex-oracle/bamboo-core/bamboo.go:206-209 | a word typed again from its entries records what the entries recorded, with their case; virtual entries record nothing |
| BambooRetype.RestoreTypesAgain | tools/telex-oracle/bamboo-core/bamboo.go:205-210 | for a word all of whose entries record a key, RestoreLastWord(true) gives what stands before the word and then exactly what typing its English text into an empty composition gives |
| BambooShape.RootIsOneStepAway | tools/telex-oracle/bamboo-core/bamboo_utils.go:63-69 | in every composition of the reachable shape the pointer recursion ends after at most one step |
| BambooShape.ToneTargetIsLetter | tools/telex-oracle/bamboo-core/bamboo_utils.go:96-141 | the tone target found, if any, is an Appending entry of the composition; which one is the next row |
| BambooPlacement.SeatIsFound | tools/telex-oracle/bamboo-core/bamboo_utils.go:96-141 | which letter carries the tone, as an index into the vowels: of one that one; of two in the standard style one that became or is ơ or ê, else the second if consonants follow and the first if not; of two in the other style the second if consonants follow or the keys are oa, oe, uy, ue or uo, else the first; of three the last of uye, else the second; of none or more than three no letter |
| BambooPlacement.StdSeatByText | tools/telex-oracle/bamboo-core/bamboo_utils.go:107-122 | read off the text, where ơ and ê show exactly where entries put them: in the standard style the tone of two vowels is on the one that reads ơ or ê, else on the second if consonants follow, else on the first |
| BambooPlacement.RefreshSeatsTone | tools/telex-oracle/bamboo-core/bamboo_utils.go:498-524 | after a refresh of a valid syllable with a tone, the text shows that tone on the seat, no letter is added, and nothing at all changes if it was there already |
| BambooKeyText.KeySeatsTone | tools/telex-oracle/bamboo-core/bamboo.go:117-140 | after any processed key: if the last syllable with what the key adds is valid and has a tone, the Vietnamese text of the whole composition shows that tone on its seat |
| BambooKeyText.BackspaceSeatsTone | tools/telex-oracle/bamboo-core/bamboo.go:229-239 | the same after a backspace that refreshes, for the rest of the last word |
| BambooPlacement.CvcByPosition | tools/telex-oracle/bamboo-core/bamboo_utils.go:182-219 | the split by position: the vowels are the last run of vowels, less a first i or u behind a single g or q (not in gi alone, nor in gie before a consonant), the last consonants are what follows, and without a vowel all is first consonant |
| BambooFits.SyllableIsValidIff | tools/telex-oracle/bamboo-core/bamboo_utils.go:71-89 | a composition of more than one entry is valid exactly if the tone set last may stand before the keys of the last consonants and the texts of the three parts stand in the grammar |
| BambooShape.MarkTargetIsLetter | tools/telex-oracle/bamboo-core/bamboo_utils.go:292-313 | a mark target is an Appending entry of the composition, and the rule is one of the mark rules given |
| BambooShape.TargetIsLetter | tools/telex-oracle/bamboo-core/bamboo_utils.go:315-340 | whatever findTarget returns decorates an Appending entry of the composition with one of the given rules |
| BambooSplit.CvcSplitIsLossless | tools/telex-oracle/bamboo-core/bamboo_utils.go:197-242 | the texts of the three parts concatenate to the text of the composition in every non-English mode, also with gi/qu and consonants only |
| BambooSplit.CvcSplitSorts | tools/telex-oracle/bamboo-core/bamboo_utils.go:182-242 | all letters of the vowel part are vowels and none of the last part is |
| BambooShape.AtomicRun | tools/telex-oracle/bamboo-core/bamboo_utils.go:182-191 | the backward scan moves over entries that do not stop the run and stops at the first that does |
| BambooSplit.LastSyllableIsForced | tools/telex-oracle/bamboo-core/bamboo_utils.go:278-290 | previous and syllable concatenate to the composition, the syllable and all its prefixes are valid, and the segment before the cut became invalid with its first entry |
| BambooSplit.AnchorIsGreedy | tools/telex-oracle/bamboo-core/bamboo_utils.go:280-285 | every prefix of the current segment is valid, and the previous segment could not take the entry it was cut at |
| BambooWords.LastWord | tools/telex-oracle/bamboo-core/bamboo_utils.go:261-276 | the last word holds no entry that ends a word, and what is before it is empty or ends with such an entry |
| BambooWords.LastWordIs | tools/telex-oracle/bamboo-core/bamboo_utils.go:261-276 | any cut with these two properties is the cut the function makes |
| BambooPunctuation.BehindSpaceIsLastField | tools/telex-oracle/bamboo-core/bamboo_utils.go:244-259 | the part behind the last recorded space holds no space among its keys, what is before it ends with one, and together they are the keys of the composition |
| BambooRewrite.RewriteHasVowels | tools/telex-oracle/bamboo-core/bamboo_utils.go:441-444 | whenever the text contains ưo or ươ the right-most vowels are not empty, so the index 0 is in range; also with letters of Appending rules |
| BambooHeap.RefreshLastToneTarget | tools/telex-oracle/bamboo-core/bamboo_utils.go:498-524 | on heap nodes: the retargeting through the pointer changes that node only, and old and new nodes are the entries of the value model |
| BambooHeap.GetLastToneTransformation | tools/telex-oracle/bamboo-core/bamboo_utils.go:163-171 | the node returned is the last tone entry that has a target, or null |
| BambooLoops.ExtractCvc | tools/telex-oracle/bamboo-core/bamboo_utils.go:221-242 | the loop over the target map computes the three parts |
| BambooLoops.ExtractLastWordLoop | tools/telex-oracle/bamboo-core/bamboo_utils.go:261-276 | the backward scan with its early returns computes the cut at the last break |
| BambooLoops.ExtractBehindSpaceLoop | tools/telex-oracle/bamboo-core/bamboo_utils.go:244-259 | the backward scan over English texts finds the last recorded space |
| BambooLoops.ExtractLastSyllableLoop | tools/telex-oracle/bamboo-core/bamboo_utils.go:278-290 | the anchor loop computes the last syllable |
| BambooLoops.FindMarkTargetLoop | tools/telex-oracle/bamboo-core/bamboo_utils.go:292-313 | the nested search loops find the last entry and first rule that fit |
| BambooLoops.GenerateUndoLoop | tools/telex-oracle/bamboo-core/bamboo_utils.go:342-387 | the nested loops collect the undo entries rule by rule |
| BambooLoops.BreakCompositionLoop | tools/telex-oracle/bamboo-core/bamboo_utils.go:487-496 | the loop collects the non-virtual keys as letters |
| BambooLoops.FindLastAppendingTrans | tools/telex-oracle/bamboo-core/bamboo_utils.go:16-24 | the backward loop finds the last letter |
| BambooLoops.FilterAppendingComposition | tools/telex-oracle/bamboo-core/bamboo_utils.go:53-61 | the loop keeps the letters in order |
| BambooEngine.BambooEngine.ProcessKey | tools/telex-oracle/bamboo-core/bamboo.go:183-195 | the method takes the state to that of the functional step, whose effect on the text the rows of BambooKeyText, BambooMarks and BambooUndo state for every reachable state, keeps the invariant, and records the key unless it is a raw double |
| BambooEngine.BambooEngine.ProcessString | tools/telex-oracle/bamboo-core/bamboo.go:177-181 | for every method the recorded text grows by exactly the keys that are no raw doubles; without Appending rules by the whole string |
| BambooEngine.BambooEngine.RestoreLastWord | tools/telex-oracle/bamboo-core/bamboo.go:197-211 | broken into keys, the Vietnamese text of the last word is its previous English text; typed again, the recorded keys are the same, and the invariant survives exactly if the word had no virtual entry |
| BambooEngine.BambooEngine.Retype | tools/telex-oracle/bamboo-core/bamboo.go:206-209 | the loop types the entries of the word one after the other |
| BambooEngine.BambooEngine.RemoveLastChar | tools/telex-oracle/bamboo-core/bamboo.go:219-240 | the state is the specified one and the letters lose their last, exactly when they can |
| BambooEngine.BambooEngine.GetProcessedString | tools/telex-oracle/bamboo-core/bamboo.go:85-96 | the text of everything, of the part behind the last space, or of the last word |
| BambooEngine.BambooEngine.RemoveFrom | tools/telex-oracle/bamboo-core/bamboo.go:229-235 | the loop drops the letter and the entries that point at it |
| BambooFlattener.Flatten | tools/telex-oracle/bamboo-core/flattener.go:15-74 | filling the maps and folding per letter computes the text of the composition |
| BambooFlattener.IndexEffects | tools/telex-oracle/bamboo-core/flattener.go:21-39 | the map holds, for each letter, the effects on it in order |
| BambooFlattener.RenderLetter | tools/telex-oracle/bamboo-core/flattener.go:40-72 | the switch over the effects is the fold |
| BambooFlattener.FoldNormalForm | tools/telex-oracle/bamboo-core/flattener.go:46-65 | any list of marks and tones without MarkRaw shows the base letter with the last mark that has a slot and the last tone, whatever the interleaving |
| BambooFlattener.CanvasConcat | tools/telex-oracle/bamboo-core/flattener.go:19-74 | texts of parts that do not decorate each other concatenate |
| BambooFlattener.EffectThatShows | tools/telex-oracle/bamboo-core/flattener.go:36-38 | an effect that changes the text points at a shown letter of the composition |
| BambooFlattener.CanvasOfBaseLetters | tools/telex-oracle/bamboo-core/flattener.go:60-71 | stripped of tones, marks and case, the text is the base letters of the letters, whatever effects they carry |
| BambooChars.ToneOverwrites | tools/telex-oracle/bamboo-core/utils.go:144-153 | a second tone replaces the first, and the tone set is the tone found |
| BambooChars.MarkAndToneCommute | tools/telex-oracle/bamboo-core/utils.go:116-153 | setting a mark and setting a tone commute |
| BambooChars.MarkOverwrites | tools/telex-oracle/bamboo-core/utils.go:106-121 | a second mark replaces the first if the family has a slot for it, and is ignored otherwise |
| BambooChars.MarkSetsMarkRegister | tools/telex-oracle/bamboo-core/utils.go:116-121 | a mark changes the toneless letter only; the tone stays |
| BambooChars.BaseIsStable | tools/telex-oracle/bamboo-core/utils.go:106-153 | no mark or tone changes the base letter |
| BambooChars.ProcessableIffWordChar | tools/telex-oracle/bamboo-core/utils.go:155-171 | a lower-case key is processed if and only if its base letter can be part of a word for extractLastWord |
| BambooChars.FindVowelPosition | tools/telex-oracle/bamboo-core/utils.go:51-58 | the loop finds the position, or -1 exactly when the character is no vowel |
| BambooTables.SourceTablesAreGood | tools/telex-oracle/bamboo-core/utils.go:15-73 | the vowel and mark tables of the source satisfy everything the proofs assume of tables |
| BambooMethods.ParsedMethodsAreGood | tools/telex-oracle/bamboo-core/rules_parser.go:129-227 | every method made of tone rules, mark rules and letter rules (with or without further letters) meets what the proofs assume; without letter rules it has no Appending rules |
| BambooSpelling.Lookup | tools/telex-oracle/bamboo-core/spelling.go:57-86 | the scan with its mutable word start returns, in order, the rows that contain a matching word |
| BambooSpelling.MatchRow | tools/telex-oracle/bamboo-core/spelling.go:61-83 | one row: found exactly when some word of the row matches |
| BambooSpelling.MatchWord | tools/telex-oracle/bamboo-core/spelling.go:69-78 | the early exits and the character loop decide whether a word matches |
| BambooSpelling.SearchAdjacent | tools/telex-oracle/bamboo-core/spelling.go:127-151 | the triple loop decides whether some left and right row are adjacent |
| BambooSpelling.CheckCVC | tools/telex-oracle/bamboo-core/spelling.go:88-125 | the step-by-step assignments compute syllable validity |
| BambooGrammar.ValidIff | tools/telex-oracle/bamboo-core/spelling.go:88-152 | exactly the accepted syllables, for every shape: every part that is there matches in some row, and of two parts that meet some rows match and stand in the matrix of both; a vowel is needed unless there is a first consonant |
| BambooGrammar.WordMatchesMeans | tools/telex-oracle/bamboo-core/spelling.go:69-78 | a complete input matches a word exactly if it is the word, or begins it when it need not be full; an incomplete one may leave out marks |
| BambooGrammar.WordsOfRow | tools/telex-oracle/bamboo-core/spelling.go:60-69 | a row without blanks is one word, and any other is its first word and the row behind the first blank |
| BambooGrammar.BeforeCh | tools/telex-oracle/bamboo-core/spelling.go:12-56 | on the shipped tables exactly the vowels of the first two rows may stand before "ch" |
| BambooGrammar.AchIsRejected | tools/telex-oracle/bamboo-core/spelling.go:12-56 | "âch" is rejected, finished or not |
| BambooGrammar.AnhIsAccepted | tools/telex-oracle/bamboo-core/spelling.go:12-56 | "anh" is accepted, finished or not |
| BambooGrammar.BeforeK | tools/telex-oracle/bamboo-core/spelling.go:12-56 | only "ă" may stand before a finished "k" |
| BambooGrammar.RowsMayDiffer | tools/telex-oracle/bamboo-core/spelling.go:127-152 | "băk" is accepted although no row of vowels may stand both behind "b" and before "k": the two matrices are consulted one at a time |
| BambooSpelling.CompleteIsValid | tools/telex-oracle/bamboo-core/spelling.go:88-125 | for arbitrary tables, valid in full mode implies valid in incomplete mode |
| BambooSpelling.TypingPrefixesAreValid | tools/telex-oracle/bamboo-core/spelling.go:88-125 | every nonempty typing prefix of a syllable valid in incomplete mode is valid in that mode |
| BambooSpelling.LaxerPrefixFindsMore | tools/telex-oracle/bamboo-core/spelling.go:57-86 | a prefix, looked up more loosely, is found in every row the whole was found in |
| Prefixalize.PrefixClosure | chromium-patches/rulebased-payload/chromeos/ash/services/ime/public/cpp/rulebased/rules_data.cc:224-270 | the expanded pattern matches a string if and only if the string is a prefix of some match of the pattern (units satisfiable, `^` only at the beginning, no $, dots only under * or ?) |
| Prefixalize.ExpansionIsSound | chromium-patches/rulebased-payload/chromeos/ash/services/ime/public/cpp/rulebased/rules_data.cc:220-222 | a match of the expansion that stops before the end is a match, one that reaches the end can be completed to one |
| Prefixalize.ExpansionIsComplete | chromium-patches/rulebased-payload/chromeos/ash/services/ime/public/cpp/rulebased/rules_data.cc:220-222 | the part inside a prefix of any match is matched by the expansion, for every pattern without bare dots, with anchors anywhere |
| Prefixalize.BareDotIsNotClosed | chromium-patches/rulebased-payload/chromeos/ash/services/ime/public/cpp/rulebased/rules_data.cc:263-264 | a pattern with a bare dot for which the expansion misses a prefix |
| Prefixalize.InnerAnchorIsNotClosed | chromium-patches/rulebased-payload/chromeos/ash/services/ime/public/cpp/rulebased/rules_data.cc:265-267 | a pattern with `^` behind a unit, for which the expansion matches a text that begins no match |
| PatternText.PrefixalizeText | chromium-patches/rulebased-payload/chromeos/ash/services/ime/public/cpp/rulebased/rules_data.cc:229-270 | the loop on positions, with escape, bracket and brace, runs the scanner |
| PatternText.PrefixalizeIsExpansion | chromium-patches/rulebased-payload/chromeos/ash/services/ime/public/cpp/rulebased/rules_data.cc:229-270 | on the text of a pattern, anchors included, the scanner writes the text of the expanded tree |
| PatternText.ExpansionReadsBack | chromium-patches/rulebased-payload/chromeos/ash/services/ime/public/cpp/rulebased/rules_data.cc:220-268 | the expansion keeps the shape that the text of a tree needs to group as the tree: postfix operators behind an atom, alternatives not concatenated |
| RulesData.MergedReadsBack | chromium-patches/rulebased-payload/chromeos/ash/services/ime/public/cpp/rulebased/rules_data.cc:294-309 | so do the merged pattern, with its appended $, and the merged prefix pattern |
| RulesData.ParseTransforms | chromium-patches/rulebased-payload/chromeos/ash/services/ime/public/cpp/rulebased/rules_data.cc:282-310 | the loop builds the map of rules by 16-bit group number and the texts of the merged alternation and the merged prefix pattern |
| RulesData.AppendEndText | chromium-patches/rulebased-payload/chromeos/ash/services/ime/public/cpp/rulebased/rules_data.cc:296-299 | appending $ to the text anchors only the last top-level alternative, and adds no group |
| RulesData.MergedTexts | chromium-patches/rulebased-payload/chromeos/ash/services/ime/public/cpp/rulebased/rules_data.cc:299-309 | cutting the last bar from the collected text leaves the text of the merged pattern |
| RulesData.DispatchIsExact | chromium-patches/rulebased-payload/chromeos/ash/services/ime/public/cpp/rulebased/rules_data.cc:385-401 | whatever match is reported, the scan ends at the key of an alternative that matched there with those groups, and the map has its rule, also for the last rule whose group the array cannot hold |
| RulesData.FirstAlternative | chromium-patches/rulebased-payload/chromeos/ash/services/ime/public/cpp/rulebased/rules_data.cc:385-401 | of the rules that match at the place of the merged match, the match is that of the first; none before it starts a match there |
| RulesData.FindGroup | chromium-patches/rulebased-payload/chromeos/ash/services/ime/public/cpp/rulebased/rules_data.cc:393-395 | the scan stops at the first set group or at the end of the array |
| RulesData.MapFindsRule | chromium-patches/rulebased-payload/chromeos/ash/services/ime/public/cpp/rulebased/rules_data.cc:303-304 | while the keys fit 16 bits no later rule overwrites an earlier one |
| RulesData.PredictTransform | chromium-patches/rulebased-payload/chromeos/ash/services/ime/public/cpp/rulebased/rules_data.cc:424-449 | the suffix loop returns true exactly when some nonempty suffix of the annotated text fully matches the prefix pattern |
| RulesData.PredictionIsExact | chromium-patches/rulebased-payload/chromeos/ash/services/ime/public/cpp/rulebased/rules_data.cc:424-449 | the prediction is true if and only if some nonempty suffix of the annotated text is a prefix of a match of some rule |
| RulesData.MatchIsPredicted | chromium-patches/rulebased-payload/chromeos/ash/services/ime/public/cpp/rulebased/rules_data.cc:424-449 | a rule match that begins inside the annotated text and ends at or behind its end is predicted, for every rule list without bare dots, with anchors anywhere |
| RulesData.NoFutureMatch | chromium-patches/rulebased-payload/chromeos/ash/services/ime/public/cpp/rulebased/rules_data.cc:424-449 | so when nothing is predicted no appended text completes a rule match that begins inside the annotated text |
| Captures.CapturesInRange | chromium-patches/rulebased-payload/chromeos/ash/services/ime/public/cpp/rulebased/rules_data.cc:385-395 | a match sets only groups of its own expression, and their spans lie inside the match |
| Captures.SiblingsAreApart | chromium-patches/rulebased-payload/chromeos/ash/services/ime/public/cpp/rulebased/rules_data.cc:385-395 | groups of which neither contains the other capture disjoint spans |
| Captures.MatchCaptures | chromium-patches/rulebased-payload/chromeos/ash/services/ime/public/cpp/rulebased/rules_data.cc:386-389 | every match has a set of captures |
| RulesSearch.Re2IsPossible | chromium-patches/rulebased-payload/chromeos/ash/services/ime/public/cpp/rulebased/rules_data.cc:387-389 | a search exists that satisfies what the model relies on: a leftmost match with its groups, by the first top-level alternative that matches there, and, without `^`, independent of the text before it |
| RulesTransform.TransformInPlace | chromium-patches/rulebased-payload/chromeos/ash/services/ime/public/cpp/rulebased/rules_data.cc:370-418 | the statements compute the specified transform, whose result RulesRewrite.TransformByPosition gives by position |
| RulesTransform.TransformIsLeftmostRule | chromium-patches/rulebased-payload/chromeos/ash/services/ime/public/cpp/rulebased/rules_data.cc:385-417 | a transform rewrites by the first of the rules that match at the leftmost place any rule matches, and happens exactly when that place is not inside the appended text |
| RulesRewrite.TransformByPosition | chromium-patches/rulebased-payload/chromeos/ash/services/ime/public/cpp/rulebased/rules_data.cc:382-417 | with the delimiter at its place in the text s, a transform happens exactly if some rule matches from a place not inside the appended text; then the match s[i..j] is of the first rule that matches at the leftmost place any does, and the result is s[..i] + x + s[j..] without its first delimiter, where x is cut at positions p0 <= .. <= pn into the texts and captured groups of the template, in order; a template with a group that the rule lacks leaves s |
| RulesRewrite.RewritingIsUnique | chromium-patches/rulebased-payload/chromeos/ash/services/ime/public/cpp/rulebased/rules_data.cc:413 | the cuts and the pieces determine the rewritten text |
| RulesRewrite.SwapExample | chromium-patches/rulebased-payload/chromeos/ash/services/ime/public/cpp/rulebased/rules_data.cc:280-281 | the rule ([0-9])([0-9])~ with the template \2\1 makes 21 of 12 and ~ |
| RulesCommit.CommitIsHarmlessIff | chromium-patches/rulebased-payload/chromeos/ash/services/ime/public/cpp/rulebased/engine.cc:104-111 | when nothing is predicted, committing changes nothing that any later key does, behind any text, if and only if no rule matches inside the context as it is (rules without `^`, none of which matches the empty text) |
| RulesCommit.EarlyCommitLosesNothing | chromium-patches/rulebased-payload/chromeos/ash/services/ime/public/cpp/rulebased/engine.cc:104-111 | when nothing is predicted and no rule matches inside the context, a key typed later, behind any untransformed text, transforms as if the context had been committed |
| RulesCommit.CommittedRunsAlike | chromium-patches/rulebased-payload/chromeos/ash/services/ime/public/cpp/rulebased/engine.cc:104-111 | the same for any number of keys, on contexts alone: the next transform comes at the same key and gives the same text behind the context |
| RulesCommit.AnchoredIsQuiescent | chromium-patches/rulebased-payload/chromeos/ash/services/ime/public/cpp/rulebased/rules_data.cc:296-299 | if no rule has a top-level bar, nothing predicted implies that no rule matches inside the context |
| RulesCommit.UnanchoredCommitDiffers | chromium-patches/rulebased-payload/chromeos/ash/services/ime/public/cpp/rulebased/rules_data.cc:296-299 | a rule with a top-level bar for which, with nothing predicted, committing early does change what the next key does |
| RulesCommit.AnchoredAtTheBeginningDiffers | chromium-patches/rulebased-payload/chromeos/ash/services/ime/public/cpp/rulebased/rules_data.cc:296-299 | a rule that begins with `^` for which, with nothing predicted and no match, committing early lets the next key transform |
| RulesDelimiter.DelimiterNeverLeaks | chromium-patches/rulebased-payload/chromeos/ash/services/ime/public/cpp/rulebased/rules_data.cc:382-417 | with a clean context, key and template (no delimiter in its text, references pairwise disjoint) the result has no delimiter |
| RulesDelimiter.RewriteHasNoMore | chromium-patches/rulebased-payload/chromeos/ash/services/ime/public/cpp/rulebased/rules_data.cc:413 | the rewritten text has no more delimiters than the match, and if it has one, a reference shows it |
| RulesDelimiter.RepeatedReferenceLeaks | chromium-patches/rulebased-payload/chromeos/ash/services/ime/public/cpp/rulebased/rules_data.cc:413-414 | a rule that references a group twice leaves a delimiter behind: one removal is not enough |
| RuleEngine.StepStaysInRange | chromium-patches/rulebased-payload/chromeos/ash/services/ime/public/cpp/rulebased/engine.cc:38-147 | after every event, Backspace included, both positions lie within their texts |
| RuleEngine.SnapshotIsFaithful | chromium-patches/rulebased-payload/chromeos/ash/services/ime/public/cpp/rulebased/engine.cc:80-94 | in every run without Backspace, a nonempty ambiguous text is the concatenation of the last k keys and the snapshot is the context and position from just before them |
| RuleEngineRaw.HistorySurvivesBackspace | chromium-patches/rulebased-payload/chromeos/ash/services/ime/public/cpp/rulebased/engine.cc:80-94 | across Backspaces, over every run: the ambiguous text is the end of the text typed and not deleted (a key appends, a Backspace takes one character, a reset empties), the snapshot is the state from just before that end, and an empty ambiguous text means no snapshot |
| RuleEngineRaw.SnapshotBehindNothingIff | chromium-patches/rulebased-payload/chromeos/ash/services/ime/public/cpp/rulebased/engine.cc:80-94 | a key leaves a snapshot behind an empty ambiguous text exactly if its own text is empty and counts as ambiguous |
| RuleEngineRaw.BackspaceTakesOne | chromium-patches/rulebased-payload/chromeos/ash/services/ime/public/cpp/rulebased/engine.cc:126-147 | a Backspace takes the last character of context and ambiguous text, the position becomes the smaller of itself and the length of the context, and the snapshot goes with the last ambiguous character |
| RuleEngineRaw.KeyRemembersLongest | chromium-patches/rulebased-payload/chromeos/ash/services/ime/public/cpp/rulebased/engine.cc:79-94 | the ambiguous text after a key is the longest that the prune pattern matches of the old one with the key, the key, and nothing; a new one comes with the state before the key |
| RuleEngineRaw.KeyComposes | chromium-patches/rulebased-payload/chromeos/ash/services/ime/public/cpp/rulebased/engine.cc:66-102 | what the rules make of snapshot and ambiguous text goes first, then what they make of the context, else the key is appended; the position follows a transform |
| RuleEngineRaw.KeyIsKeptIff | chromium-patches/rulebased-payload/chromeos/ash/services/ime/public/cpp/rulebased/engine.cc:104-116 | the text stays in composition exactly if some suffix of it, and some suffix of the text of the snapshot if there is one, begins a match of a rule; else all of it is committed |
| RuleEngineRaw.HandledIff | chromium-patches/rulebased-payload/chromeos/ash/services/ime/public/cpp/rulebased/engine.cc:38-64 | an event is handled exactly if it is a mapped key or a Backspace with text to take; any other resets and commits the text a key finds in composition |
| RuleEngine.RunStaysClean | chromium-patches/rulebased-payload/chromeos/ash/services/ime/public/cpp/rulebased/engine.cc:38-147 | over every run no delimiter reaches context, history, committed text or composition text |
| RuleEngineCommit.AttemptsSplit | chromium-patches/rulebased-payload/chromeos/ash/services/ime/public/cpp/rulebased/engine.cc:66-94 | decomposition: until it commits, the next transform of the engine, which tries the snapshot first, is the earlier of what its snapshot and what its context would make |
| RuleEngineCommit.EngineCommitIsLosslessIff | chromium-patches/rulebased-payload/chromeos/ash/services/ime/public/cpp/rulebased/engine.cc:66-111 | after a commit by the first test, the fresh engine makes the next transform at the same key into the same text, over every run of keys, if and only if there is no snapshot or, for every single text t, the snapshot with t transforms into nothing or into what t alone becomes behind the context |
| RuleEngineCommit.EngineCommitLosesNothing | chromium-patches/rulebased-payload/chromeos/ash/services/ime/public/cpp/rulebased/engine.cc:66-111 | a guard that can be tested: without a snapshot, or if in its text no rule match begins or is predicted up to where it was taken, the commit loses nothing over any run of keys |
| RuleEngineCommit.SnapshotIsLost | chromium-patches/rulebased-payload/chromeos/ash/services/ime/public/cpp/rulebased/engine.cc:74-111 | rules a→X and aa→Y with `a` ambiguous: after the first a the first test commits X, though with the snapshot the next a would have made Y; the commit is not lossless |
| RuleEngineWhole.EverythingIsPredicted | chromium-patches/rulebased-payload/chromeos/ash/services/ime/public/cpp/rulebased/def/vi_telex.cc:132-141 | with a rule of the form ^(.*)… every nonempty line is predicted |
| RuleEngineWhole.NothingIsCommitted | chromium-patches/rulebased-payload/chromeos/ash/services/ime/public/cpp/rulebased/engine.cc:38-117 | a layout with such a rule, no prune pattern, and no newline in key texts and templates commits nothing over any run of mapped keys and Backspaces: all that was typed is still in composition |
| RuleEngine.CommitsKeepTheText | chromium-patches/rulebased-payload/chromeos/ash/services/ime/public/cpp/rulebased/engine.cc:38-147 | over every run, for every reason to commit, committed text and composition together change only by the edit of the event |
| RuleEngine.KeyMapOnlyHasNoContext | chromium-patches/rulebased-payload/chromeos/ash/services/ime/public/cpp/rulebased/engine.cc:61-64 | a layout without rules never has a context, commits each mapped key as it is and leaves the others to the system |
| RuleEngine.Engine.ProcessKey | chromium-patches/rulebased-payload/chromeos/ash/services/ime/public/cpp/rulebased/engine.cc:38-117 | the new state and the result are those of the specified step; positions stay in range |
| RuleEngine.Engine.TransformKey | chromium-patches/rulebased-payload/chromeos/ash/services/ime/public/cpp/rulebased/engine.cc:66-117 | history first, then context; history updated before the state; commit by either test |
| RuleEngine.Engine.UpdateHistory | chromium-patches/rulebased-payload/chromeos/ash/services/ime/public/cpp/rulebased/engine.cc:79-94 | the three-way history update |
| RuleEngine.Engine.ProcessBackspace | chromium-patches/rulebased-payload/chromeos/ash/services/ime/public/cpp/rulebased/engine.cc:126-147 | takes back one character of context and ambiguous text, moves the position back to the end of the text if it was behind, and forgets the snapshot with the last ambiguous character |
| RuleEngine.Engine.Reset | chromium-patches/rulebased-payload/chromeos/ash/services/ime/public/cpp/rulebased/engine.cc:30-36 | the initial state |
| RuleEngine.Engine.Activate | chromium-patches/rulebased-payload/chromeos/ash/services/ime/public/cpp/rulebased/engine.cc:22-28 | resets and loads only when the id changes |
| RuleAdapter.PreeditAgrees | chromium-patches/rulebased-payload/chromeos/ash/services/ime/rule_based_engine.cc:47-158 | after any sequence of key events the host shows the normalised context of the engine, and nothing for a layout without rules |
| RuleAdapter.StepKeepsInStep | chromium-patches/rulebased-payload/chromeos/ash/services/ime/rule_based_engine.cc:47-158 | one event keeps host and engine in agreement and puts exactly the normalised committed text in front of the cursor |
| RuleAdapter.HandleEngineResult | chromium-patches/rulebased-payload/chromeos/ash/services/ime/rule_based_engine.cc:47-70 | the two guarded host calls make the specified change, and the answer says whether the key was handled |
| RuleAdapter.RuleBasedEngine.ProcessKeyEvent | chromium-patches/rulebased-payload/chromeos/ash/services/ime/rule_based_engine.cc:125-158 | the filter and the engine call make the specified joint step; agreement is kept |
| RuleAdapter.RuleBasedEngine.OnCompositionCanceledBySystem | chromium-patches/rulebased-payload/chromeos/ash/services/ime/rule_based_engine.cc:120-123 | after a cancellation the engine is initial and agrees with the emptied host |
| RuleAdapter.RuleBasedEngine.constructor | chromium-patches/rulebased-payload/chromeos/ash/services/ime/rule_based_engine.cc:182-194 | a new engine has the layout of its id, is initial and agrees with an empty host |
| RuleAdapter.GenerateModifierValue | chromium-patches/rulebased-payload/chromeos/ash/services/ime/rule_based_engine.cc:35-45 | a value below 8 from which shift, AltGr and caps lock can be read back |
| WebSocket.MessageIsReassembled | tools/cdp.py:75-102 | for any fragmentation of a message with pings and pongs in between, recv returns the concatenated payload and leaves exactly the following bytes (sections 5.4 and 5.5 of RFC 6455) |
| WebSocket.PartOfMessageIsClosed | tools/cdp.py:75-102 | cut anywhere before its end, a message is never delivered |
| WebSocket.WS.Recv | tools/cdp.py:75-102 | answer and unread rest are a function of the byte stream alone, however the socket cuts it |
| WebSocket.WS.Take | tools/cdp.py:80-90 | one frame is taken exactly when it has arrived completely |
| WebSocket.WS.Need | tools/cdp.py:58-60 | fills the buffer without losing or reordering bytes; fails exactly when the stream is too short |
| WebSocket.WS.Send | tools/cdp.py:62-73 | writes one final, masked text frame, or nothing exactly when the length does not fit 64 bits |
| WebSocket.SentFrameIsDecoded | tools/cdp.py:62-73 | a server that unmasks as section 5.3 of RFC 6455 says reads the frame back, for all three length encodings |
| WebSocket.WireByPosition | tools/cdp.py:62-73 | the bytes of a sent frame: 0x80 for the last one plus the opcode, the mask bit plus the length or 126 or 127, then the length in 2 or 8 bytes with the highest digit first, the key, and the payload with every bit flipped that the key has set |
| WebSocket.FrameReadsBack | tools/cdp.py:80-90 | an unmasked frame of section 5.2 of RFC 6455 is read back with its final bit, opcode, payload and rest |
| Pak.LoadAfterSave | tools/pak.py:18-43 | whatever fits its fields is loaded as it was saved |
| Pak.Save | tools/pak.py:31-43 | the packing loop writes the specified image, and fails exactly when a field does not fit |
| Pak.FileByPosition | tools/pak.py:31-40 | the bytes of a saved file: version 5, encoding, zeroes and both counts in 12 bytes, lowest digit first; 6 bytes of id and offset for each resource and the sentinel; 4 bytes for each alias; the resources one behind the other, each where its entry says |
| Pak.SaveAfterLoad | tools/pak.py:18-43 | a well-formed file is saved byte for byte as it was loaded |
| Pak.RoundTripIffWellFormed | tools/pak.py:18-43 | of the files that load, exactly the well-formed ones (zero padding, contiguous offsets up to the end, zero sentinel id) come back byte for byte |
| Pak.LoadsIfIndexed | tools/pak.py:22-29 | a file loads exactly if version, header and index are there, with the entries and aliases the index gives |
| Pak.LoadsIfUnpacked | tools/pak.py:18-29 | compressed or not, a file loads exactly if it can be unpacked and what is in it has version, header and index |
| Pak.LoadAfterSaveOfAll | tools/pak.py:18-43 | whatever fits survives saving and loading, with or without compression of the whole |
| Pak.Tool.LoadAll | tools/pak.py:15-24 | loads what is in the file, and remembers having seen a compressed one, even one it cannot unpack |
| Pak.Tool.SaveAll | tools/pak.py:31-43 | writes a file that loads as what was saved, compressed exactly if a compressed one was seen |
| Pak.ImageIndex | tools/pak.py:36-38 | every index entry of a saved file, sentinel included, reads back its id and offset |

## Left out

- Heap nodes outside `BambooHeap`: entries are values with an identity and targets are identities; Go slices that share a backing array are not modelled.
- Reverse order, `MarkRaw` outside the double press, changing flags within a run theorem, and functions the engine does not call (`HasAnyVietnameseRune`).
- BambooRetype.RetypeKeepsKeys: for methods without Appending rules; with them a key of the word can be a raw double when it is typed again.
- BambooStack.KeyPushes: for methods without Appending rules only; virtual letters of AppendedRules make a key push several letters.
- BambooBackspace.BackspacePops: for compositions without virtual letters; a virtual letter is an Appending entry that shows nothing.
- BambooOps.RunsKeepShape: for methods without appendedRules, the only source of virtual letters; keys alone keep the shape for every method (`BambooRuns.KeystrokesRecorded`).
- BambooOps.BackspaceAlwaysPops: with free tone marking, for runs that drop no tone; `BambooQu.WithoutQDropsNothing` gives that for runs without a q, which methods never drop one with a q is open, and `BambooOps.BackspacePopsIff` holds for all.
- BambooQu.WithoutQDropsNothing: for methods without appendedRules, the source of virtual letters.
- BambooStack.KeystrokesConserved: for keys with a simple case mapping (upper of lower gives the key back) and a nonzero lower-case form; title case and zero runes are not typed.
- BambooRewrite.RewriteHasVowels: for lower-case tables and compositions without MarkRaw.
- Input method parsing (`rules_parser.go`) as far as the text of the definitions goes; the rules it makes are `BambooMethods.IsParsed`. `encoder.go` and per-language rule data: finite tables, taken as parameters with stated assumptions.
- Prefixalize.PrefixClosure: patterns with `^` further inside or with `$`, with a dot that is not under * or ?, or with a class that matches nothing are excluded; the first and the second kind can break the property, and a class that matches nothing has prefixes but no match. The half that the commit relies on needs none of this but the dots (`Prefixalize.ExpansionIsComplete`).
- PatternText.ExpansionReadsBack: there is no parser in the model; that a text of this shape has no other tree is RE2's syntax and not proved.
- RE2 itself: the search is a parameter that finds a leftmost match with its groups, takes the first top-level alternative that matches there and, without `^`, does not look at text before it; priorities inside a rule are left open; parsing patterns, byte offsets inside UTF-8 and characters outside the basic plane are not modelled. A text is a sequence of characters, so a position is a number of characters.
- PatternText.PrefixalizeIsExpansion: for patterns printed from a tree without non-capturing groups or a raw `[` inside a class; stray braces and unbalanced brackets are not patterns.
- RulesCommit.EarlyCommitLosesNothing: for rules without `^` and bare dots. With a rule that begins with `^` it can be false (`RulesCommit.AnchoredAtTheBeginningDiffers`): such a rule cannot match behind the context and can once that is committed. Lists with a rule ^(.*)… never come to such a commit (`RuleEngineWhole.EverythingIsPredicted`); for other lists with `^` nothing is claimed. Delimiters come from the engine alone.
- RulesCommit.CommittedRunsAlike: up to the next transform; from then on the engine that had committed nothing would move its delimiter, and the two differ by design.
- RuleEngineCommit.EngineCommitIsLosslessIff: for the first commit test, of a context in which no rule matches, and up to the next transform; of a commit by the history test, which can lose a transform of the context, only `RuleEngine.CommitsKeepTheText` is claimed.
- RulesData.DispatchIsExact: for fewer than 65536 groups in all; beyond that the 16-bit keys wrap and rules overwrite each other.
- RuleEngine.SnapshotIsFaithful: between Backspaces, where the ambiguous text is the last keys; across them `RuleEngineRaw.HistorySurvivesBackspace` says it is the end of what is left.
- RuleEngineRaw.HistorySurvivesBackspace: that an empty ambiguous text means no snapshot needs that no key with an empty text counts as ambiguous; `RuleEngineRaw.SnapshotBehindNothingIff` is the exact case.
- BambooMarks.MarkKeyShows: of a letter to which the key takes a second mark along, the mark shown is the second (`BambooUndo.SecondMarkShows`).
- BambooUndo.UndoShowsTones: before the refresh, which may move the cleared tone to the seat of the syllable with the new letter and so give another vowel its earlier tone back; where it puts the last tone is `BambooKeyText.KeySeatsTone`.
- BambooUndo.DoubledKeyShows: for keys that are no vowels; a tone set on a letter that shows such a key shows on it.
- BambooKeyText.KeySeatsTone: for syllables with one to three vowels that are shown, without MarkRaw, and character tables with ơ and ê among the vowels, as the source has them.
- Key map tables of the layouts, mojo plumbing, focus and settings callbacks, ICU normalisation (a function that maps the empty text to itself), layout ids and raw data lookup (a parameter).
- The WebSocket handshake, JSON, message ids, HTTP and the command line of cdp.py; a frame is sent with a given mask instead of a random one.
- WebSocket.MessageIsReassembled: for unmasked frames, as RFC 6455 requires of a server.
- Gzip itself: packing and unpacking are parameters that undo each other; a file that cannot be unpacked is an error. Compressed entries, and the `kind`, `payload`, `grep`, `dump` and `sub` commands of pak.py.
- `unikey_engine.cc` and the engine it wraps, tests, scripts, patches and manifests.
