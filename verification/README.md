# Wordsworth: verified model

Wordsworth takes in documents, replaces personal data in their text by reversible
pseudonyms, keeps the originals sealed, and forgets documents on request. This project
models its hardest parts in Dafny 4.11 and proves what they promise.
`dafny verify dfyconfig.toml` checks all of it.

## What is modelled

**The text engine** (`Lexer` to `Misreadings`). A text is a sequence of pieces: characters
left as they were, and tokens with the value each stands for (`Pieces`). A pass cuts
the text into kept and replaced stretches (`Cuts`, `Matching`); the four detectors and
the entity values are rules (`Rules`, `Detection`); hosts of allowed addresses step
aside as marks (`Hosts`); the fail-hard check masks tokens and looks for survivors
(`Survivors`); `Anonymizer` is the driver with its store. `RoundTrip` has the main
results: a whole run stands for exactly the neutralised input, its check never rejects,
and a reveal brings the values back. What a run replaces is told apart from how it does so:
`Detecting` and `Numbers` for the detectors, `Replacing` for the reported values, and
`Reveal.RevealAt` for what a reveal opens. `Legible` is the reader's view with its legend.

The round trip is proved for every text and any store that earlier runs and key rotations
left, under conditions a caller can check before the entity pass (`RoundTrip.Good`,
`RoundTrip.Faithful`): reported values hold no square bracket, no character of a host mark
and none of the masks of the run (`Survivors.Immune`); their types are label words; no value
can be misread next to another or to a token of the text (`Survivors.Misread`), as values
with word edges never can (`RoundTrip.WordEdged`); protected spans cut no token; and when
there are protected spans, the text holds no host mark of its own. Where these end, the
exact conditions follow: `Misreadings` for sets of values that the check misreads,
`Lookalikes` for a value that reads as masks, `Swallowing` for values that hold a bracket,
`OwnMarks` for host marks of the text, and `Reveal.RevealReadsBack` with `Respellings` for
values that come back in another spelling. `Barriers` is the tool behind two of these.

**Sealed originals** (`Envelope`, `Originals`). The byte layout of a sealed object, the
bounded timed key cache, the five write rules over an object store that never rolls back
and a key table that does, ingest's clean-up, and the orphan sweep. `Deliveries` says what
one delivery and one transaction leave, `Sweeping` what the sweep does beside a transaction
that is still open. Transactions run one at a time in one process.

**Documents over their life** (`States` to `Registry`). The trail and the state derived
from it, registration, processing, re-derivation, OCR recovery, supersession, dedupe, deletion of
documents and dossiers. Every operation is a function on the tables and on what outlives
a rollback (the search index, the object store); `Runs` quantifies over all runs with a
commit or rollback after each operation, `Deletion` and `Processing` over cuts between
effects, and `Registry` carries the operations out with their loops. `Outcomes` and `Acts`
tell from the tables and the index alone where a run of `process` ends and what each single
act leaves.

**Keys** (`Vault`, `Mappings`). Workers that take, rotate and migrate keys are a
transition system: each vault operation is one atomic step, and the steps of any number
of workers interleave in any order.

**Chains** (`Chain`). Both hash-chained trails, their exports in steps, the exported
lines, and the retention-locked copy.

**Arithmetic and search** (`RateLimit`, `Topics`, `Chunks`). The two token buckets over
real times, the cut search over nested partitions, unique names, and chunking with its
offset mapping.

## Assumptions

- The cipher is ideal: what one key sealed, that key opens and no other does
  (`Mappings.Decrypt`); authenticated encryption also binds its associated data
  (`Envelope.Ideal`), and unwrapping undoes wrapping.
- SHA-256 enters as a function. Where a result needs more, it says so and only for the
  inputs at hand: `Chain.CollisionFree`, `Originals.Unforged` (the bytes delivered and those
  that read back under their address), and the key ids within `Originals.HeaderTrue`.
  `Vault` draws key ids that are not in the vault yet.
- The keyed digest of a pseudonym is any function to eight hexadecimal digits; nothing is
  assumed about collisions. `RoundTrip.SharedToken` says what equal tokens mean, and
  `RoundTrip.RunReveals` what follows when the two values and the keys of the table at hand
  show no collision (`RoundTrip.NoCollision`).
- The Unicode classes behind the regular expressions are functions that are the familiar
  ones on ASCII (`Rules.Sane`, met for instance by `RoundTrip.Ascii`); labels are ASCII.
  Normalisation is any function.
- What services answer (detection, profiling, extraction, embedding) is a parameter;
  `Processing` takes the same answers on the same bytes.

## Findings

- A value may start in front of a token and end inside it: the code tests only where a
  match starts. A pass loses tokens exactly when a replacement covers the start of one
  (`Swallowing.TokensStand`), a value can do so exactly when it has the head of a token
  behind its first character (`Swallowing.SwallowsExactly`), and `Swallowing.BracketBreaks`
  is such a run.
- The same test lets an occurrence stay when a match that starts inside a token covers it,
  exactly then and for every text (`RoundTrip.KeptExactly`); the check then fails the run
  (`Swallowing.OccurrenceStays`).
- The survivor check can reject a run that replaced everything
  (`Lookalikes.MaskLookalike`), for one value exactly when the value can be spelled with the
  masks of the run (`Lookalikes.RefusedExactly`).
- The check masks every token with the edges of the last value the pass placed it for: also
  where it was placed for another value with the same token, and where it stood before the
  pass. So it can find a value where none stands (`Misreadings.SharedTokenRefuses`,
  `Misreadings.OldTokenRefuses`); a set of values without masks is rejected on some text
  exactly when one of them can be misread so (`Misreadings.SetsRefusedExactly`).
- A host mark that stands in the text itself is filled with a host or fails the run
  (`Limits.OwnMark`); `OwnMarks.OwnMarksExactly` says exactly when, for every text.
- A value that comes back in another spelling can join its surroundings into a token that was
  in neither text (`Respellings.TwoSpellings`, two runs from an empty store);
  `Reveal.RevealReadsBack` says exactly when a reveal does that.
- After a rolled-back delivery `get_original` answers from the key cache for an object no
  table knows (`Originals.PhantomRead`, `Originals.GetIsReadBack`).
- The docstring of `_unique_name` says a name that still collides gets " (2)" behind it.
  The code gives up one term after another instead, so " (2)" only ever stands behind the
  name without terms (`Topics.UniqueName`); `Topics.SecondRepeats` says when it repeats.
- The orphan sweep lists and removes in two steps; an object delivered again in between
  is lost (`Originals.SweepRaceHappens`), exactly when a row names the key of its header at
  removal (`Originals.SweepLoses`, `Originals.SweepAfterRuns`).
- `export_worm` counts by subtracting sequence numbers, which is right exactly without
  gaps (`Chain.NumbersAreRows`); `export_key_lifecycle_worm` counts rows.
- The in-process rate limiter clamps a clock that goes back and then runs on from the
  earlier time; its bound holds exactly on times that do not go back
  (`RateLimit.ProcessBoundExactly`).
- Deleting a document that OCR recovery gave a new object leaves the original scan in the
  store (`Runs.ScanStays`).

## Model

| member | source | states |
|---|---|---|
| Lexer.LexOfFlat | src/wordsworth/pseudonymizer.py:46-46 | A text assembled from plain characters and tokens (or host marks, or legend placeholders) scans back into exactly those parts, in order, when no plain run spells one by itself: assembling and the left-to-right regex scan are inverse. |
| Lexer.FlatOfLex | src/wordsworth/pseudonymizer.py:46-46 | The other way round, for every text: what the scan reads, put together again, is the text; no character is lost or doubled. |
| Lexer.NoAtomInside | src/wordsworth/pseudonymizer.py:46-46 | Tokens never overlap: strictly inside one, none starts. |
| Pieces.LexRender | src/wordsworth/pseudonymizer.py:46-46 | On a clean processed text the token scanner finds exactly the tokens that were put in. |
| Pieces.TokenStarts | src/wordsworth/pseudonymizer.py:332-335 | Wherever a token starts in a processed text, a placed token piece of that length starts. |
| Pieces.CoarsensTrans | src/wordsworth/pseudonymizer.py:188-198 | Passes compose: turning plain runs into tokens twice is turning plain runs into tokens of the first text. |
| Pieces.CoarsensKeepsTokens | src/wordsworth/pseudonymizer.py:320-335 | A pass leaves every token of the earlier text standing, with its value. |
| Cuts.PassKeeps | src/wordsworth/pseudonymizer.py:332-362 | Cutting a clean text into kept and replaced stretches that respect its tokens gives clean text over the same source; the tokens of the result are the old ones plus exactly the replacements made. |
| Matching.Matched | src/wordsworth/pseudonymizer.py:351-362 | The match at a position is one that fits, and no longer one fits there: the longest-first alternation and the greedy quantifiers settle on the longest. |
| Matching.RulePass | src/wordsworth/pseudonymizer.py:337-362 | One substitution pass of a rule that spares tokens keeps the round trip: same source, old tokens intact, new tokens only where the rule replaced. |
| Detection.FitsNoStretch | src/wordsworth/detectors.py:12-31 | No value a detector can match is a stretch of a label in capitals or of an eight-digit hash. |
| Detection.DetSpares | src/wordsworth/pseudonymizer.py:188-198 | None of the four detectors takes a match that starts inside a token one of them placed. |
| Detection.LayerKeeps | src/wordsworth/pseudonymizer.py:188-201 | All four detector passes in order: clean text over the same source, every token of an earlier pass still standing, and the tokens exactly the replacements of the four passes. |
| Detecting.DetectedExactly | src/wordsworth/detectors.py:111-135 | For every text: what fits a detector and stands there with word edges is replaced by the pass of that detector exactly when it is taken: a BSN by the eleven-test, an IBAN by the remainder of 97, an address always, a postcode unless a PO box stands in the forty characters before it. |
| Detecting.FourPasses | src/wordsworth/detectors.py:87-94 | The layer is the passes of all four detectors, BSN, IBAN, address, postcode, each over what the one before left. |
| Numbers.BsnExactly | src/wordsworth/detectors.py:43-47 | A BSN is nine digits, not all zero, whose sum with the weights nine to two and minus one is divisible by eleven. |
| Numbers.BsnOneDigit | src/wordsworth/detectors.py:43-47 | A BSN with one digit changed is none: the eleven-test catches every single wrong digit. |
| Numbers.IbanExactly | src/wordsworth/detectors.py:50-56 | An IBAN is what spells, with its first four characters at the end and its letters as numbers, a decimal number that leaves one when divided by 97. |
| Numbers.IbanOneCharacter | src/wordsworth/detectors.py:50-56 | An IBAN with one digit changed for a digit, or one letter for a letter, is none. |
| Numbers.PoBoxExactly | src/wordsworth/detectors.py:40-69 | The context rule finds a PO box exactly where the word, white space, a number and one to four separators stand up to the end. |
| Reveal.NeutraliseForeignTokens | src/wordsworth/pseudonymizer.py:96-120 | The loop returns the neutralised text and the number of tokens taken apart, and no token is left. |
| Reveal.NeutralIsFree | src/wordsworth/pseudonymizer.py:96-120 | Taking tokens apart leaves none and builds none, whatever the input. |
| Reveal.NeutralKeepsFree | src/wordsworth/pseudonymizer.py:96-120 | A text without tokens is unchanged, so a second run changes nothing. |
| Reveal.NeutralReadable | src/wordsworth/pseudonymizer.py:108-111 | Only square brackets become round ones; every other character stays where it was. |
| Reveal.NeutralAt | src/wordsworth/pseudonymizer.py:108-120 | Of each token of any text, wherever it stands, the brackets become round and nothing else, and it is counted once. |
| Reveal.RevealToken | src/wordsworth/pseudonymizer.py:145-162 | The gates in order: a token that is not registered, of a type not granted, without a row or without its key stays; a row that does not decrypt raises. `Reveal.RevealAt` says the same of a whole text, and apart from these functions. |
| Reveal.Reveal | src/wordsworth/pseudonymizer.py:123-164 | The loop replaces the tokens every gate lets through and raises exactly when one of them does not decrypt. What it reports are tokens of the text that the document registered, whose type is granted and whose row opens, and all of them when it comes to its end; where nothing is registered and granted, the text is unchanged and nothing is reported. |
| Reveal.RevealAt | src/wordsworth/pseudonymizer.py:145-164 | For every text and every token that stands in it: it is replaced by its value exactly when the document registered it (if that is checked), the label between its bracket and colon is granted (if that is checked), and its row opens under the key it names; otherwise it stays in its place, whatever else the text holds. |
| Reveal.TokensStand | src/wordsworth/pseudonymizer.py:143-164 | The tokens the scan finds are exactly the tokens that stand somewhere in the text. |
| Reveal.NothingGranted | src/wordsworth/pseudonymizer.py:145-150 | A text none of whose tokens is both registered and granted is returned as it is, nothing is reported, and nothing is raised. |
| Reveal.RevealedInOrder | src/wordsworth/pseudonymizer.py:161-164 | Tokens are reported in the order of the text. |
| Reveal.RevealPieces | src/wordsworth/pseudonymizer.py:143-164 | A reveal of a clean text acts on its pieces one by one. |
| Reveal.RevealStaysClean | src/wordsworth/pseudonymizer.py:143-164 | With exact spellings no revealed value joins its surroundings into a new token: what is left is clean text over the same source. |
| Reveal.RevealsCompose | src/wordsworth/pseudonymizer.py:123-164 | Revealing types A and then types B is revealing A and B at once. |
| Reveal.RevealRestores | src/wordsworth/pseudonymizer.py:123-164 | When every token opens to its own spelling, the reveal is the source text. |
| Mappings.InMemoryMappingStore.Put | src/wordsworth/mapping_store.py:86-89 | The first row of a pseudonym stays; no other row changes. |
| Mappings.InMemoryMappingStore.Reencrypt | src/wordsworth/mapping_store.py:94-106 | The loop moves exactly the rows under the old key onto the new one and counts them; it fails exactly when a key does not resolve or one of those rows does not open. |
| Mappings.MovedOpensTheSame | src/wordsworth/mapping_store.py:60-76 | After re-encryption every pseudonym opens to the value it opened to before. |
| Hosts.HostSpan | src/wordsworth/pseudonymizer.py:416-425 | The host starts where the address starts and ends at the first slash, question mark or hash behind the scheme, or at its end. |
| Anonymizer.SchemeEnds | src/wordsworth/pseudonymizer.py:420-422 | The scheme of an address ends behind its first `://`; without one the host starts with the address. |
| Anonymizer.HostsOf | src/wordsworth/pseudonymizer.py:249-249 | Of every allowed address only the host is protected: from its start to the first slash, question mark or hash behind the scheme. |
| Anonymizer.Protected | src/wordsworth/pseudonymizer.py:435-437 | The spans that are taken out are the hosts of the allowed addresses, none of them lost, by where they start. |
| Hosts.HostsOut | src/wordsworth/pseudonymizer.py:428-447 | The loop over the sorted spans takes out each span not overlapped by an earlier one, up to the size of the mark block, and leaves one mark for each. |
| Hosts.HostsOnPieces | src/wordsworth/pseudonymizer.py:428-447 | When no span cuts a token, the text without hosts is the pieces between the hosts with marks in between, and what was taken out are the hosts' own pieces. |
| Hosts.PassOnJoined | src/wordsworth/pseudonymizer.py:431-433 | No value can cover any part of a mark: a pass over the text with marks is a pass on each stretch between them. |
| Hosts.BackFills | src/wordsworth/pseudonymizer.py:449-451 | Putting the hosts back fills every mark with its own host and nothing else, and meets no mark that was not placed. |
| Survivors.NoSurvivor | src/wordsworth/pseudonymizer.py:364-412 | Whatever the masker knows of the tokens: in the masked output of the entity pass a value that holds none of the masks stands as a whole word only when it can be misread, that is, read next to the token of another value whose mask has other edges, or half in the mask of one. |
| Anonymizer.TokenSpans | src/wordsworth/pseudonymizer.py:332-335 | A position lies in one of the collected spans exactly when it lies in a token. |
| Anonymizer.TrimIs | src/wordsworth/pseudonymizer.py:302-302 | A reported value is taken without the white space at its ends, and nothing else is taken off. |
| Anonymizer.LowerAt | src/wordsworth/pseudonymizer.py:304-304 | A type is lower-cased character by character. |
| Anonymizer.LabelsAre | src/wordsworth/pseudonymizer.py:293-304 | The values to replace are exactly the trimmed ones of at least three characters, each with the type of the first report of it. |
| Anonymizer.CountsAre | src/wordsworth/pseudonymizer.py:347-347 | A type is counted once for each replacement of a value of it, and is listed only then. |
| Anonymizer.KnownLast | src/wordsworth/pseudonymizer.py:348-348 | A token is known for the last value it was placed for. |
| Anonymizer.LayerCounted | src/wordsworth/pseudonymizer.py:194-196 | Each detector is counted under its own label with the number of its replacements in the text the ones before left. |
| Anonymizer.ReversibleAnonymizer.MakePseudonym | src/wordsworth/pseudonymizer.py:174-186 | The token for a value of a type, with its encrypted original put first-wins. |
| Anonymizer.ReversibleAnonymizer.Substitute | src/wordsworth/pseudonymizer.py:337-362 | One pass over the text: the output, the replacements in order, and the store with one first-wins row per replacement. |
| Anonymizer.ReversibleAnonymizer.AnonymizeDeterministic | src/wordsworth/pseudonymizer.py:188-201 | Neutralise, then each detector over what the one before it left, with the counts and the store that follow. |
| Anonymizer.ReversibleAnonymizer.PseudonymizeEntities | src/wordsworth/pseudonymizer.py:267-413 | Values, hosts out, one pass, fail-hard check, hosts back. The values are exactly the reported ones that have three characters or more when trimmed, each under the lower-cased type of its first report (`Anonymizer.Reports`); the answer (also each failure) and the store follow from them. |
| Anonymizer.ReversibleAnonymizer.Anonymize | src/wordsworth/pseudonymizer.py:229-265 | A whole run: blank text returns early, a failed detection raises, otherwise both layers with merged counts; what is replaced and what is counted is in `Replacing` and `Detecting`. |
| RoundTrip.NoneSurvive | src/wordsworth/pseudonymizer.py:390-412 | The fail-hard check rejects no run on clean text whose values hold none of the masks of that run and cannot be misread next to each other or next to the tokens that stand in the text. |
| Misreadings.SetsRefusedExactly | src/wordsworth/pseudonymizer.py:382-412 | For every set of values without masks and every set of tokens that may stand in a text: the check rejects some clean text with no other tokens exactly when one of the values can be misread, which the values, their types and their tokens decide. |
| Misreadings.SharedTokenRefuses | src/wordsworth/pseudonymizer.py:382-412 | Concrete failure: when `123456789` and `123456789.` share a token, and `-qrs` is a value too, the text `123456789-qrs 123456789.` is rejected, though `-qrs` stands in it nowhere as a word. |
| Misreadings.OldTokenRefuses | src/wordsworth/pseudonymizer.py:382-412 | Concrete failure: the values `123456789.` and `abx` against `ab`, the token of the number, and ` 123456789.` are rejected: the mask of the token that stood there lends the `x`. |
| RoundTrip.NoneKept | src/wordsworth/pseudonymizer.py:351-362 | Of values without brackets, on every text: no whole-word occurrence starts in a stretch the pass keeps, unless it starts in a token. |
| RoundTrip.KeptExactly | src/wordsworth/pseudonymizer.py:332-339 | For every text and every value: a whole-word occurrence stays exactly when the match that covers it starts inside a token, where only its start is looked at. |
| Replacing.RunReplaces | src/wordsworth/pseudonymizer.py:229-413 | A run within the conditions, told from what the detector reported: in the text without the hosts, each replacement is of a reported value of at least three characters, by the token of the lower-cased type of its first report, and no such value stands as a whole word in a kept stretch, tokens aside; the output is that text with the hosts back. |
| Replacing.DoneChecked | src/wordsworth/pseudonymizer.py:390-412 | Whatever the detector reports, and also outside the conditions: when a run hands out a text, none of those values stands as a whole word in what the fail-hard check looked at. |
| Replacing.RunWithoutValues | src/wordsworth/pseudonymizer.py:232-244 | Of a text of white space the detectors have the last word; a failed detection hands out no text; and where no value of three characters is reported the text is that of the detectors. |
| Replacing.RunCounts | src/wordsworth/pseudonymizer.py:251-253 | The counts of a run are those of the detectors with those of its replacements added. |
| Replacing.ForeignCounted | src/wordsworth/pseudonymizer.py:191-200 | Tokens that stood in the text are counted one by one, and listed only when there were any. |
| Swallowing.OccurrenceStays | src/wordsworth/pseudonymizer.py:332-339 | Concrete failure: with the values `12345678] xyz` and `xyz` against `[BSN:12345678] xyz` the second stays, because the first is matched inside the token and left alone; the check finds it and the run fails. |
| RoundTrip.TokensFound | src/wordsworth/pseudonym_registry.py:38-40 | The tokens found in an output are exactly the tokens the run made. |
| RoundTrip.RunKeeps | src/wordsworth/pseudonymizer.py:229-265 | A whole run (neutralise, four detectors, hosts out, entity pass, check, hosts back) succeeds; its output stands for exactly the neutralised input, no pass broke a token, its tokens are exactly the replacements the passes made, and the store gained exactly the rows of those tokens. |
| RoundTrip.RunKeepsStore | src/wordsworth/pseudonymizer.py:174-186 | Every run keeps all rows openable, and each row naming a value whose token, under a key of the table, is its own. |
| RoundTrip.RotationKeepsStore | src/wordsworth/mapping_store.py:60-76 | So does a re-encryption under a new key while the table of keys grows, which leaves the tokens as they were minted: runs and rotations can alternate. |
| RoundTrip.SharedToken | src/wordsworth/pseudonymizer.py:53-58 | Two values with one token, each under its own key, have the same type label and digest, and the same type and normal form unless the eight-digit digest collides. |
| RoundTrip.RunReveals | src/wordsworth/pseudonymizer.py:123-164 | Round trip, from any store of earlier runs and rotations: revealing all registered tokens of a run opens every one of them, each to a value that was given this token under a key of the table, and changes nothing else. Unless the digest collides, under the keys of the table, on the two values, the one revealed equals the one that stood there up to normalisation. |
| RoundTrip.RunRestores | src/wordsworth/pseudonymizer.py:123-164 | From any store: the text is restored piece by piece exactly when no two spellings share a token, counting those of the replacements the run makes and those the store already holds; then the reveal is the neutralised text. |
| RoundTrip.RunRevealsCompose | src/wordsworth/pseudonymizer.py:123-164 | In the same case reveals compose over types, whatever the store held before. |
| RoundTrip.FirstRunRestores | src/wordsworth/pseudonymizer.py:123-164 | From an empty store only the spellings of the replacements of the run itself count. |
| RoundTrip.LettersRestore | src/wordsworth/pseudonymizer.py:123-164 | In plain ASCII, for runs over words of letters, there is a finite table of keys with which every text whose spellings share no token is restored. |
| RoundTrip.LettersAreGood | src/wordsworth/pseudonymizer.py:229-265 | The conditions are met by every text whose reported values are words of letters other than x, when no address is protected. |
| Lookalikes.MaskLookalike | src/wordsworth/pseudonymizer.py:382-412 | Concrete failure: the value `a xx` against `a xx[a [BSN:00000000]` is rejected, though its one occurrence was replaced. |
| Lookalikes.RefusedExactly | src/wordsworth/pseudonymizer.py:364-412 | For one value: the check rejects some clean text exactly when the value can be spelled with masks of the run, that is, holds `xx` or its own mask, or ends or starts with half of one whose other half is a NUL. |
| Swallowing.BracketBreaks | src/wordsworth/pseudonymizer.py:332-339 | Concrete failure: the value `a [BSN` against `a [BSN:12345678]`. The run succeeds, its output has one token, that of the value, and the token of the text is no token any more. |
| Swallowing.PassConserves | src/wordsworth/pseudonymizer.py:332-362 | For every text and every rule that starts in no token: the tokens after a pass, with those whose start was covered, are the tokens before it with those placed. |
| Swallowing.TokensStand | src/wordsworth/pseudonymizer.py:332-362 | For every text and every set of values: all tokens of the text stand in the result of the entity pass exactly when no replacement covers the start of one behind its own first character; otherwise there are fewer. |
| Swallowing.SwallowsExactly | src/wordsworth/pseudonymizer.py:332-339 | A value can do that to some clean text exactly when the head of a token, up to where one can go on, stands behind its first character. |
| Swallowing.EveryTextClean | src/wordsworth/pseudonymizer.py:46-46 | Every text is the text of some clean sequence of pieces, so clean text is no restriction here. |
| Reveal.RevealReadsBack | src/wordsworth/pseudonymizer.py:143-164 | For every clean text and every gate: what a scan of the revealed text sees are the pieces the reveal left exactly when no plain run between the tokens that stay spells a token. |
| Respellings.TwoSpellings | src/wordsworth/pseudonymizer.py:123-164 | Concrete failure, from an empty store: when `PERSON` and `person` share a token, a run over `PERSON` and one over `[person:12345678]` both end well, neither text holds a token, and the reveal of the second output is the token `[PERSON:12345678]`. |
| Barriers.BarrierPass | src/wordsworth/pseudonymizer.py:351-362 | A character that is in no word, no token and no value keeps the entity pass on either side of it apart: what is written and what is replaced is what the pass makes of each side alone. |
| OwnMarks.OwnMarksExactly | src/wordsworth/pseudonymizer.py:428-451 | For every text and all spans: short of a surviving value, the run fails on a host mark of the text exactly when a stretch between the hosts holds one with a number that was not given out; otherwise the hosts come back between the stretches, and these are as the pass left them exactly when every mark they hold is filled with itself. |
| OwnMarks.ShortHosts | src/wordsworth/pseudonymizer.py:449-451 | With a host shorter than a mark a text with marks of its own can come back right by accident. |
| Limits.OwnMark | src/wordsworth/pseudonymizer.py:449-451 | Concrete failure: a text with one protected host and a host mark of its own. The mark of the first host is filled with that host a second time; any other mark fails the run. |
| Legible.NotesDistinct | src/wordsworth/legible.py:24-33 | Distinct tokens get distinct placeholders even when several types share a reader label, and a token once numbered keeps its number. |
| Legible.NumberedByOccurrence | src/wordsworth/legible.py:24-33 | A token that is new gets the number of different tokens its label has so far, itself included: the numbering follows the first occurrence and has no gap. |
| Legible.ReaderLabels | src/wordsworth/legible.py:13-20 | Types have their reader's label, two share one, and a type without one keeps its name. |
| Legible.ToLegible | src/wordsworth/legible.py:22-36 | The loop returns the view under the final numbering, and a legend that is its inverse. |
| Legible.ViewRestores | src/wordsworth/legible.py:22-36 | For every text: putting the legend back restores it exactly when it held no placeholder of the legend itself. |
| Envelope.SealOpens | src/wordsworth/originals_envelope.py:39-75 | Opening undoes sealing, and the header names the key. |
| Envelope.AadInjective | src/wordsworth/originals_envelope.py:35-36 | The associated data tells object keys and key ids apart. |
| Envelope.SealBinds | src/wordsworth/originals_envelope.py:62-75 | A sealed object opens at its own object key and at no other. |
| Envelope.HeaderExactly | src/wordsworth/originals_envelope.py:51-59 | A key id is read from thirty bytes or more that begin with WWENC and version one, and from nothing else. |
| Originals.UnwrapSound | src/wordsworth/document_keys.py:151-161 | Of a key with a row only the row's own key is handed out, whatever is cached; without a row a live cached key is handed out all the same. |
| Originals.GetAddress | src/wordsworth/originals_store.py:131-140 | What `get_original` returns has the address it was asked for, whatever the cache holds. |
| Originals.GetIsReadBack | src/wordsworth/originals_store.py:131-140 | With the key service up a reader gets what the table and the store hold, exactly unless a live cached key opens a sealed object that has no row. |
| Originals.PhantomRead | src/wordsworth/originals_store.py:131-140 | Concrete failure: after a first delivery that was rolled back, `get_original` returns its bytes until the cached key expires, though no table knows them. |
| Originals.PutKeepsInv | src/wordsworth/originals_store.py:86-129 | Whichever of the five rules ran: rows stay sound and are never re-keyed, the cache stays coherent, every object is sealed for its own key. |
| Originals.WroteOverNothing | src/wordsworth/originals_store.py:29-38 | `WROTE` only when nothing readable was there, for this transaction and for everyone else. |
| Originals.PutKeepsReadable | src/wordsworth/originals_store.py:86-129 | A readable original reads the same after the call, before and after a commit or rollback. |
| Originals.PutMakesReadable | src/wordsworth/originals_store.py:86-129 | From every reachable state one put makes the bytes readable exactly unless the object was downgraded; with the key service up nothing else fails. |
| Originals.TransactionKeepsReadable | src/wordsworth/pipeline.py:144-164 | A transaction of deliveries, committed, rolled back or failed with its clean-up delete, takes no readable original away and changes none. |
| Deliveries.CommittedReads | src/wordsworth/originals_store.py:86-129 | Every delivery of a transaction that commits reads back as what was delivered, whatever came before and after it. |
| Deliveries.TransactionIs | src/wordsworth/pipeline.py:144-164 | A transaction none of whose deliveries raises is published as it stands or rolled back to the committed rows; one that raises leaves the committed rows. |
| Deliveries.FailedLeavesNothing | src/wordsworth/pipeline.py:158-163 | A delivery that fails behind its write leaves no object of its own, and no other changed; one that did not write leaves all as they were. |
| Deliveries.PutRow | src/wordsworth/originals_store.py:77-129 | After a write the row says sealed, and since when; a row that was there keeps its owner and key, a new one is the deliverer's; bytes delivered unchanged pass to the deliverer. |
| Originals.RunsKeepReadable | src/wordsworth/originals_store.py:86-129 | The same over any run of transactions. |
| Originals.OrphanIsUnreadable | src/wordsworth/sealed_orphans.py:34-57 | Among sealed objects older than an hour, an orphan is exactly one that no row opens. |
| Originals.SweepIsSafe | src/wordsworth/sealed_orphans.py:60-69 | When nothing happens between listing and removal, the sweep changes nothing a reader can see. |
| Originals.SweepLoses | src/wordsworth/sealed_orphans.py:60-69 | A sweep of an earlier listing loses a readable original exactly when, by then, a row of one of the listed objects names the key of its header (for an unsealed object: no row says it was sealed). |
| Originals.SweepAfterRuns | src/wordsworth/sealed_orphans.py:60-69 | Listing, any run of transactions, removal: a loss is exactly such an object in use, and only when a transaction in between delivered its bytes. |
| Originals.SweepRaces | src/wordsworth/sealed_orphans.py:60-69 | Concrete failure: an orphan delivered again and committed between listing and removal is removed with the only readable copy. |
| Originals.SweepRaceHappens | src/wordsworth/sealed_orphans.py:60-69 | The whole course from nothing: a rolled-back delivery, listed an hour later, delivered again and committed, and swept away. |
| Sweeping.InFlightSurvives | src/wordsworth/sealed_orphans.py:41-42 | A write in flight is never touched: an original that an open transaction wrote less than an hour before the listing is not found, outlives the removal, and reads back after the commit, whatever else the transaction delivers before, between and behind the two steps. |
| Sweeping.OldIsFound | src/wordsworth/sealed_orphans.py:41-42 | What it wrote is found, while its row is not committed, exactly from an hour after the write on. |
| Originals.DocumentKeys.Lookup | src/wordsworth/document_keys.py:94-103 | A live entry moves to the fresh end of the cache; an expired one goes. |
| Originals.DocumentKeys.Store | src/wordsworth/document_keys.py:105-109 | The new entry is freshest and the oldest are evicted down to the bound. |
| Deliveries.CacheGetIs | src/wordsworth/document_keys.py:94-103 | A key is handed out exactly while its entry lives, and is then the freshest; an expired entry is gone; the others keep their order. |
| Deliveries.CachePutIs | src/wordsworth/document_keys.py:105-109 | A stored key is the freshest, replaces the one of its object, and pushes out the oldest only as far as the bound demands. |
| Deliveries.PutFinds | src/wordsworth/document_keys.py:105-109 | What was stored for an object is what is found for it. |
| Deliveries.UnwrapCaches | src/wordsworth/document_keys.py:111-119 | A key that had to be unwrapped is cached with its term. |
| Originals.DocumentKeys.Mint | src/wordsworth/document_keys.py:121-149 | A fresh key with its row, cached at once; nothing when the key service refuses. |
| Originals.DocumentKeys.UnwrapKey | src/wordsworth/document_keys.py:151-161 | From the cache, or unwrapped under the row's own key-encryption key and cached. |
| Originals.OriginalsStore.Write | src/wordsworth/originals_store.py:86-129 | The five rules in the order they are tried, against the specification. |
| Originals.OriginalsStore.Read | src/wordsworth/originals_store.py:131-140 | The guarded read, against the specification. |
| Originals.OriginalsStore.Deliver | src/wordsworth/pipeline.py:144-164 | One delivery with its clean-up: only an object this call wrote is deleted. |
| Originals.OriginalsStore.Transact | src/wordsworth/pipeline.py:144-164 | A transaction on one session, against the specification. |
| Originals.OriginalsStore.FindOrphans | src/wordsworth/sealed_orphans.py:34-57 | A key is found exactly when it is listed, under `documents/`, carries a well-formed sealed header, was written an hour ago or more, and no row names the key of its header; in the order of the listing. |
| Originals.OriginalsStore.Sweep | src/wordsworth/sealed_orphans.py:60-69 | Removes what was found and is still there, reports exactly that, and touches nothing else. |
| Vault.ScopesApart | src/wordsworth/keys.py:48-53 | No two pairs of domain and type share a key scope. |
| Vault.MigrationKeeps | src/wordsworth/mapping_store.py:60-76 | Re-encryption by a worker never fails and moves ciphertext only. |
| Vault.EventSafe | src/wordsworth/transit.py:127-166 | Every step of every worker keeps one active key per scope, every handed-out key and every mapping's value. |
| Vault.RunSafe | src/wordsworth/keys.py:125-187 | Over every interleaving of any number of workers: at most one active key per scope, all handed-out keys resolvable, all mappings with their values. |
| Vault.RunKeepsPromises | src/wordsworth/key_lifecycle.py:22-47 | A key handed out early resolves to the same material at the end of any run, and a value stored early reads the same. |
| Vault.KeyVault.Put | src/wordsworth/transit.py:174-180 | An existing id is left alone; a second active key of a scope is refused; otherwise the row is added. |
| Vault.KeyVault.ActiveFor | src/wordsworth/transit.py:185-189 | The active row of the scope, or none when there is none. |
| Vault.KeyVault.SetRetired | src/wordsworth/transit.py:191-196 | Only the status of that row changes; an unknown id fails. |
| Vault.DurableKeyProvider.Material | src/wordsworth/keys.py:139-146 | A live cache entry or a fresh unwrap: always the row's material. |
| Vault.DurableKeyProvider.MintOrAdopt | src/wordsworth/keys.py:152-168 | A fresh active key, or the winner when the scope has one. |
| Vault.DurableKeyProvider.CurrentKey | src/wordsworth/keys.py:170-174 | The scope's active key, made on first use; nothing else changes. |
| Vault.DurableKeyProvider.KeyOf | src/wordsworth/keys.py:176-181 | Any id ever stored resolves, whatever its status. |
| Vault.DurableKeyProvider.Rotate | src/wordsworth/keys.py:183-187 | Exactly the new key is active in the scope and every older id still resolves. |
| Vault.DurableKeyProvider.RotateKeys | src/wordsworth/key_lifecycle.py:22-47 | After a rotation every mapping under the previous key is under the new one and none is left, their number is reported, and every mapping opens to what it opened to before. |
| Chain.VerifyChain | src/wordsworth/audit.py:70-90 | The loop returns the number of the first record that does not fit, and none exactly when the chain verifies. |
| Chain.FirstBadIs | src/wordsworth/audit.py:70-90 | The reported record is the first that does not fit: the chain in front of it verifies, and with it no longer does. |
| Chain.AppendAllVerifies | src/wordsworth/audit.py:31-67 | Every chain that was only appended to verifies, and appending changes nothing before it. |
| Chain.AppendAllHolds | src/wordsworth/audit.py:31-67 | What was appended stands behind what was there, in order, record by record. |
| Chain.SameTail | src/wordsworth/hashing.py:24-48 | Two verifying chains with the same last hash are equal record by record, when the digests at hand do not collide and none is the genesis value. |
| Chain.VerifiesConcat | src/wordsworth/key_audit_pg.py:158-172 | A chain verifies exactly when both parts of any cut do, the second from the hash before it. |
| Chain.ExportsConcat | src/wordsworth/key_audit_pg.py:132-147 | Exports that each start at the last number of the one before lose nothing and repeat nothing, also when numbers are skipped. |
| Chain.ExportsComplete | src/wordsworth/key_audit_pg.py:132-147 | From the start, the exports together are the whole table. |
| Chain.NumbersAreRows | src/wordsworth/audit_export.py:184-199 | Counting a slice by subtracting numbers (`export_worm`) agrees with counting its rows exactly when no number was skipped since the last export. |
| Chain.LineRoundTrip | src/wordsworth/key_audit_pg.py:89-94 | Stripping the envelope gives the payload back exactly when the payload uses none of the envelope's keys; then the whole record is read back. |
| Chain.LineHolds | src/wordsworth/key_audit_pg.py:89-94 | In a line the actor and the hashes are never the payload's; number, time, stream and action are the payload's where it has such keys, and else the record's. |
| Chain.SliceVerifies | src/wordsworth/key_audit_pg.py:150-172 | At every cut, the exported slice verifies from the hash before it exactly when the whole chain does. |
| Chain.VerifyLines | src/wordsworth/key_audit_pg.py:158-172 | Verifying exported lines is verifying the records they tell of. |
| Chain.WormStore.PutLocked | src/wordsworth/audit_export.py:62-69 | Refused exactly while the object is there and its term has not come; otherwise the object and its term are set. |
| Chain.WormStore.Delete | src/wordsworth/audit_export.py:71-73 | Refused exactly while the object is there and its term has not come; otherwise it is gone. |
| Chain.ExportWorm | src/wordsworth/key_audit_export.py:32-70 | Refuses a chain that does not verify and an object under lock, and then stores nothing; otherwise the slice past the last export is stored under lock and nothing else changes, and it is reported with first, last and count from its rows when it verifies from the hash before it. |
| RateLimit.TokenBucket.Check | src/wordsworth/rate_limit.py:81-95 | Refills with the clock clamped, decides and spends; no other client's bucket changes. |
| RateLimit.PostgresTokenBucket.Check | src/wordsworth/rate_limit_pg.py:31-69 | The one statement: refills with the plain difference, decides and spends. |
| RateLimit.Conserved | src/wordsworth/rate_limit_pg.py:36-43 | What is left is at most what was there, plus what time gave, minus what was spent. |
| RateLimit.SqlBound | src/wordsworth/rate_limit_pg.py:31-45 | Between any two checks of a run, the later allowed, at most burst + rate x time were allowed, in whatever order the times came. |
| RateLimit.BucketsAgree | src/wordsworth/rate_limit.py:81-95 | On times that do not go back the two buckets are one. |
| RateLimit.ProcessBoundExactly | src/wordsworth/rate_limit.py:87-88 | The bucket in the process meets the bound for every limit exactly on times that do not go back. |
| RateLimit.ProcessBoundFails | src/wordsworth/rate_limit.py:87-88 | Concrete failure: two checks at one moment allowed with a burst of one, after the clock went back and forth. |
| RateLimit.RetryIsLeast | src/wordsworth/rate_limit.py:94-95 | `retry_after` is the least whole number of seconds, at least one, after which the client is allowed; with a burst below one there is none. |
| Topics.FitsBelow | src/wordsworth/topics.py:259-263 | What fits at a height fits at every lower one, because the groups are nested. |
| Topics.SearchFit | src/wordsworth/topics.py:289-297 | The binary search finds the highest cut that fits, or the lowest when none does. |
| Topics.Clusters | src/wordsworth/topics.py:289-318 | The highest cut that fits; if it leaves no group of the minimum size, the highest cut with two of them when there is one. |
| Topics.UniqueName | src/wordsworth/topics.py:212-232 | Ends on every input, with the first of its candidate names that is not in use, each giving up its last term for the next one; only when all are in use the " (2)" of the name without terms. |
| Topics.NameIsFirstThree | src/wordsworth/topics.py:207-208 | A name is the first three of the scored terms that are not skipped, or all of them when there are fewer. |
| Topics.CandidatesShrink | src/wordsworth/topics.py:212-232 | The next candidate is made of the terms without the one that came last in this one; behind a name without terms there is none. |
| Topics.SecondRepeats | src/wordsworth/topics.py:229-230 | The name handed out is in use exactly when every candidate is taken and the " (2)" of the name without terms is too. |
| Topics.TopicIndex.WriteMembership | src/wordsworth/topics.py:389-404 | A document of the dossier has afterwards exactly its topics that were not retired and the one it was given; other documents keep theirs. |
| Chunks.ChunkText | src/wordsworth/openanonymiser_driver.py:96-115 | Pieces that concatenate to the text, none empty or above the bound, no two neighbours small enough to be one, each ending where a line does, or full and within one line. |
| Chunks.ShiftSelects | src/wordsworth/openanonymiser_driver.py:213-225 | A shifted span selects in the whole text what it selected in its chunk. |
| Chunks.DetectEntities | src/wordsworth/openanonymiser_driver.py:206-229 | Exactly the detections of the chunks come back, as many as there were, each moved by the start of its chunk; one that lies in its chunk selects in the text what it selected there. |
| States.DeletedStays | src/wordsworth/states.py:34-55 | A deleted document stays deleted, whatever is recorded after. |
| Acts.SourcesExactly | src/wordsworth/states.py:34-55 | The states a document can come from, for each state: all edges and no other. |
| Acts.IndexedCameThrough | src/wordsworth/states.py:34-55 | A document that is indexed was anonymized before, extracted before that, and extractable before that, in any trail of allowed moves. |
| Acts.TransitionExactly | src/wordsworth/pipeline.py:59-92 | A transition fails exactly when the document is elsewhere and the move is not allowed; made twice it is made once; it moves no other document. |
| Lifecycle.SupersedeFacts | src/wordsworth/supersession.py:49-82 | What a supersession does: the pointer and the state are set, every dossier of the copy passes to the survivor, and nothing else moves. |
| Lifecycle.SupersedeSound | src/wordsworth/supersession.py:49-82 | It keeps the trail a path, the pointers acyclic, retired copies out of dossiers, and one live document per key. |
| Acts.AcceptedExactly | src/wordsworth/supersession.py:49-64 | A copy is accepted exactly when both documents exist and are two, the survivor has the bytes in question and is not retired, and the copy is not deleted and either not retired or retired in favour of this survivor. |
| Acts.MovesRecorded | src/wordsworth/supersession.py:66-74 | Each dossier the copy leaves is recorded, and each one the survivor joins by that. |
| Runs.SupersedingIndex | src/wordsworth/supersession.py:64-64 | With a supersession the copy is out of the index; every other entry is as it was. |
| Lifecycle.RegisterSound | src/wordsworth/pipeline.py:95-114 | Registering for an object without live document keeps everything sound and one live document per key. |
| Lifecycle.FollowLater | src/wordsworth/supersession.py:49-60 | Where a pointer leads now is where its earlier end leads now. |
| Deletion.DeleteEmpties | src/wordsworth/deletion.py:104-191 | A completed deletion leaves no index entry, text, token or grant, and releases the key. |
| Deletion.DeleteResumes | src/wordsworth/deletion.py:14-22 | Cut between any two effects, any number of times: the run that completes ends as if it had been the only one. |
| Deletion.DeleteSpares | src/wordsworth/deletion.py:92-101 | Wherever it is cut, no other document loses its object, text, tokens, mappings, memberships, grants or index entry. |
| Deletion.DeleteRemoves | src/wordsworth/deletion.py:137-172 | The object goes exactly when no other document that is not deleted names it, a mapping exactly when no other document registers it. |
| Acts.DeleteStages | src/wordsworth/deletion.py:132-172 | The index entry goes first, then the object, and the tables last. |
| Acts.ObjectGoesExactly | src/wordsworth/deletion.py:136-142 | The object goes exactly when no other document at all has its key. |
| Acts.MappingGoesExactly | src/wordsworth/deletion.py:148-172 | A mapping goes exactly when the document registered its token and no other did. |
| Runs.ScanStays | src/wordsworth/recovery.py:78-96 | Finding, as a run: a scan is delivered, found unprocessable, given an object of its own by OCR and then deleted. The new object goes, the scan stays, and no document names it. |
| Deletion.DossierMembers | src/wordsworth/dossier_deletion.py:80-146 | Every other dossier and its topics keep exactly what they had; the deleted one has none. |
| Deletion.DossierDocuments | src/wordsworth/dossier_deletion.py:111-118 | A member is deleted exactly when no other dossier holds it; every other document keeps its object, text, tokens, mappings and grants. |
| Acts.MemberGoesExactly | src/wordsworth/dossier_deletion.py:111-118 | With a dossier goes exactly each document that this dossier and no other holds. |
| Acts.CutSparesShared | src/wordsworth/dossier_deletion.py:96-118 | Cut while it deletes, it has not touched a document another dossier holds, nor one that is no member. |
| Acts.ReleasesRecorded | src/wordsworth/dossier_deletion.py:138-140 | Every membership that ends with the dossier is recorded. |
| Deletion.DossierScope | src/wordsworth/dossier_deletion.py:127-137 | If the index's scope field agreed with the memberships before, it agrees after. |
| Runs.DoKeeps | src/wordsworth/pipeline.py:129-206 | Every operation keeps the whole invariant, what is set once, and every dossier's holdings. |
| Runs.TransactKeeps | src/wordsworth/pipeline.py:9-10 | So does every operation that rolls back with its outside effects done. |
| Runs.TransactShows | src/wordsworth/supersession.py:14-18 | Every operation, committed or rolled back with its outside effects done, leaves in the index only documents that are not retired and have come as far as a text. |
| Runs.RunsAreSound | src/wordsworth/pipeline.py:59-92 | Over every run from any sound state, for instance nothing, removals from dossiers and deletions of dossiers included, cut or not: one live document per key, the trail a path of allowed edges, every pointer chain ending at a live document, nothing findable of a deleted document, and no document with a pointer in the index, when only live documents with a text were in it before. |
| Runs.RunsKeepHomes | src/wordsworth/dossiers.py:73-109 | Over every run: a pointer is set once, deleted stays deleted, and every dossier that held a document holds the one that took its place, unless the run closes that dossier or takes a document from it. |
| Acts.JoinIs | src/wordsworth/dossiers.py:73-109 | A retired copy is refused, a member stays one without a record, anyone else joins with one. |
| Acts.LeaveIs | src/wordsworth/dossiers.py:112-135 | A member leaves with a record; of anyone else nothing changes. |
| Memberships.DossierEnds | src/wordsworth/dossier_deletion.py:80-146 | The deletion of a dossier that comes to its end keeps everything sound, adds nothing to the index, and ends memberships in that dossier only. |
| Memberships.CutFine | src/wordsworth/dossier_deletion.py:96-101 | Cut anywhere in either loop and rolled back, it leaves the tables as they were and the index without anything new. |
| Processing.ProcessResumes | src/wordsworth/pipeline.py:249-374 | Any number of failed attempts, cut anywhere, rolled back or committed: the run that completes ends in the same state, text, tokens, trail and index entry as one uninterrupted run. |
| Processing.CompleteEnds | src/wordsworth/pipeline.py:249-374 | A run ends in a resting state and keeps the invariant. |
| Outcomes.RunEnds | src/wordsworth/pipeline.py:249-374 | Where a run ends, from whatever state: a born-digital document whose text can be read ends indexed, with its anonymized text stored and in the index, its tokens grown by exactly those of that text, its key and its dossiers; a broken one and one without text end failed and a scan unprocessable, with nothing stored. |
| Rederiving.AgainChangesNothing | src/wordsworth/pipeline.py:428-447 | Idempotent: a second `reanonymize` with the same outcome changes nothing but the trail, which notes it. |
| Outcomes.RederiveStores | src/wordsworth/pipeline.py:478-523 | `reanonymize` stores the new text and puts it in the index with key and dossiers, only adds tokens and mappings, and leaves the state and all other documents. |
| Rederiving.FailuresHeal | src/wordsworth/pipeline.py:428-447 | Failures behind the index, any number of them: stored text, tokens and trail stay as they were, and the run that completes ends as if it had been the only one. |
| Rederiving.OrphanedTokens | src/wordsworth/pipeline.py:412-425 | The loop counts, by label, exactly the registered tokens that do not occur in the new text, and lists no label without one. |
| Rederiving.UnreachedNeverShown | src/wordsworth/pipeline.py:412-425 | What is reported as orphaned is what no reveal of the new text can reach: with or without those registrations it shows, reports and fails alike; every other registered token stands in the text. |
| Registry.Registry.LiveDocument | src/wordsworth/pipeline.py:167-178 | The live document of an object key, or none when there is none. |
| Registry.Registry.Deliver | src/wordsworth/pipeline.py:181-206 | The live document of the bytes: the one there is, or a new one; the object is there either way. |
| Registry.Registry.Process | src/wordsworth/pipeline.py:249-374 | The stages in order from whatever state the document is in, as one uninterrupted run, ending as `Outcomes.Ends` says: the anonymized text and its tokens stored and in the index, or the failure with nothing stored. |
| Registry.Registry.Reanonymize | src/wordsworth/pipeline.py:428-523 | Index first, then text, tokens and an event: afterwards the new text is stored and in the index and its tokens are registered; another state or unreadable bytes change nothing; the orphans are counted against the tokens registered before. |
| Registry.Registry.SupersedeCopy | src/wordsworth/supersession.py:49-82 | Out of the index, dossiers one by one, record, pointer. When it is accepted the copy is in no index entry; every other entry is as it was, and a refusal leaves the tables as they were. |
| Registry.Registry.Recover | src/wordsworth/recovery.py:40-96 | The scan stays, is retired, or gets its own object and goes on. |
| Outcomes.PoorScanStays | src/wordsworth/recovery.py:63-77 | A scan with too little text stays what it is: one event, nothing stored, no object. |
| Outcomes.GoodScanMoves | src/wordsworth/recovery.py:78-96 | A scan whose bytes nobody has gets its own object and goes on as extractable; the scan stays in the store. |
| Outcomes.KnownScanRetires | src/wordsworth/recovery.py:80-89 | A scan whose bytes another document has is retired in its favour, keeps its own key, and its dossiers pass on. |
| Registry.Registry.DeleteDocument | src/wordsworth/deletion.py:104-191 | The effects in their order up to the cut, the pseudonym rows one by one. |
| Registry.Registry.RemoveDossier | src/wordsworth/dossier_deletion.py:80-146 | The two loops; the dry run reports the same classification and changes nothing. |
| Registry.Registry.Plan | src/wordsworth/dedupe.py:33-46 | Every object with copies, its live documents oldest first, as registered in the trail. |
| Registry.Registry.LiveByAge | src/wordsworth/dedupe.py:35-42 | The live documents in the order of their registration. |
| Acts.OldestExactly | src/wordsworth/dedupe.py:33-46 | What is kept of an object is the live document whose registration comes first in the trail. |
| Registry.Registry.Dedupe | src/wordsworth/dedupe.py:57-89 | From a table with copies: exactly the oldest live document of each object is left live, every dossier that held a copy holds it, and of the index exactly the entries of the copies retired are gone. |

## Left out

- Several processes sharing the key table: `DocumentKeys.mint` caches before the commit, so
  another process can hold a stale key until it expires; the model has one process.
- Concurrent inserts that the database refuses (`register_live`, `mint`, `dossiers.add`,
  `ensure` adopting the winner): transactions run one at a time outside `Vault`.
- RoundTrip.RunKeeps: proved under the conditions of `RoundTrip.Good`, one way only for the run as a
  whole; what each condition shuts out is exact on its own (`Swallowing.TokensStand`,
  `Misreadings.SetsRefusedExactly`, `Lookalikes.RefusedExactly`, `OwnMarks.OwnMarksExactly`), but
  some runs outside them succeed on the text at hand.
- RoundTrip.NoneSurvive: several values at once are asked to hold none of the masks of the run; when
  one value holds a mask, another may replace part of it, so for sets with such values only the
  case of one value is exact (`Lookalikes.RefusedExactly`).
- Survivors.NoSurvivor: as `RoundTrip.NoneSurvive`.
- Misreadings.SetsRefusedExactly: speaks of the entity pass on clean text; which texts the detectors
  leave is not part of it. With no tokens allowed the text holds none.
- OwnMarks.OwnMarksExactly: that the text comes back unchanged is exact for hosts of at least three
  characters, the length of a mark (`OwnMarks.ShortHosts`).
- RoundTrip.NoneKept: values with brackets are left to `RoundTrip.KeptExactly`.
- Replacing.RunReplaces: under the conditions of `RoundTrip.Good`; outside them `Replacing.DoneChecked`
  says what the check guarantees, and `RoundTrip.KeptExactly` which occurrences stay.
- Detecting.DetectedExactly: digits are word characters and no separators, as in the Unicode classes
  of the regular expressions; of addresses that overlap, which one is replaced is left to the scan.
- Numbers.IbanOneCharacter: a letter for a digit, which changes the length of the number, is not
  part of it.
- Sweeping.InFlightSurvives: one open transaction at a time; the key service answers it.
- RoundTrip.RunRestores: the converse is stated for the pieces, not for the text as a whole; two
  wrong spellings next to each other can spell the right text by accident.
- Anonymizer.ReversibleAnonymizer.Anonymize: detection statistics, allow and deny lists and the
  particle-name detector are inside the `Finder` parameter; type names are ASCII.
- Reveal.Reveal: the audit record of `deanonymize` and how a grant selects the allowed types.
- Processing.ProcessResumes: the box map of `compute_box_map`, passages and vectors, and retries
  with backoff within one attempt.
- `reanonymize` as a change of anonymizer: `Rederiving` takes the new text and tokens as given; the
  topics and passages handed to the index are not modelled.
- Topics.Clusters: zero and one vectors are answered before a tree is built; linkage and distances
  are given as the nested cuts.
- `usable_name`, `display_name` and the scoring of terms: `UniqueName` takes the scored terms.
- Chain.ExportWorm: `verify_export` of the document chain compares with the database rows again;
  modelled is the key-lifecycle export, and of the document export its count.
- JSON itself: a line is the map it encodes.
- `dossiers.ensure`, `rename`, `homeless`, `resolve` and `listing`: names only, no effect on members.
- `dedupe.run` with expected counts and the follow-up `set_dossiers` of the index.
- `InMemoryKeyProvider`, `StubKeyProvider`: test doubles without a vault.
- Escrow and the rotation record of `rotate_keys`: effects outside the vault and the mappings.
- HTTP routes, console, command lines, login, OpenSearch queries, PDF and OCR engines, S3, OpenBao,
  summaries, metrics and backfills: no part of the model.
