# Verified model of Retract

Retract reviews what a person left behind in messaging accounts and deletes it. This project models the parts
of it where a mistake costs most, in Dafny 4.11, and proves what they promise for all inputs and all runs:

* **The archive parser** reads an export as a stream of bytes. A decimal automaton, a calendar grammar, a
  lexical guard, a one-pass structural summary, a path index and a directory check each stand in front of code
  that trusts them. Each is an imperative model proved equal to a simple declarative definition
  (`Decimal`, `Calendar`, `Snowflake`, `LexicalGuard`, `Shapes`, `Budgets`, `Structure`, `Profile`, `Reader`,
  `GrammarSets`, `PathTrie`, `ZipDirectory`, `ArchiveReaders`), and some have a second account that does without
  the helpers of the first: `MissingKeys` and `DocumentCosts` of the summary, `EntryNames` of well-formed names,
  `ZipLayout` of whole archives as the format's own tables lay them out.
* **Checksums and codecs** decide what looks like an address or a card number: the Bech32 polynomial as linear
  algebra over GF(2), GF(32) and GF(1024), five-to-eight-bit regrouping, Base58, Luhn and MOD 97
  (`Bech32`, `Bech32Field`, `Bech32Distance`, `Bech32Twins`, `BitGroups`, `SegWit`, `PublishedAddresses`, `Base58`,
  `Checksums`).
* **Plans** freeze what was reviewed: first message of every key, sorted, batched per chat, sealed with a
  fingerprint over canonical JSON (`DeletionPlan`, `PlanFingerprint`, `Batches`, `CanonicalJson`, `RemediationPlan`,
  `Sealing`, and `PlanRules` for what a sealable plan is, in its own fields and in numbers).
* **Execution** runs frozen batches against a driver that may answer anything, at any time
  (`FrozenBatches`, `FrozenRuns`, `PlanExecution`, `Grants`).
* **Persistence** writes, verifies, renames and syncs one encrypted file, and lets repositories of several
  scopes share it (`FoundationStore`, `FoundationState`, `StateValidation`, `StateRules`, `Repository`, `RepositoryRuns`,
  `RepositoryOutcomes`).

`Options`, `Radix`, `Sequences`, `OrderedKeys` and `Sorting` are shared helpers. `dafny verify dfyconfig.toml` checks everything.

## How to read it

Code that works step by step is a method or a class with loops, proved against a function; the lemmas about the
function say what it means. Four modelling decisions matter throughout:

* A byte of a stream is a `char` below 256. Integer widths are written out where they matter: the truncating
  32-bit accumulator, the checked 64-bit sums, the saturating depth.
* The driver of a run is a finite script of answers. A call that has no answer yet is pending, so every prefix of
  every run is the run of some script.
* A disk fault is a parameter of the step that meets it, and a crash is an operation of its own. A crash in the
  middle of an operation is that operation failing at that point and then the crash. A rename that reports an
  error did not happen. A file that was written and synced without an error is durable; a file whose sync failed
  may hold anything after a crash.
* Encryption and digests are abstract: a sealed state is a constructor, and the two digests of a plan are
  arbitrary functions, assumed injective only where a lemma says so.

Where the code and its documentation differ, or a promise has a gap, the model follows the code and states the exact
condition:

* The runner's documentation says that it stops on uncertainty, but the code looks only at `fatal` and at `retry`
  (`FrozenRuns.StopsExactlyOnFatal`).
* An existing backup is compared but not synced again. The bytes of a migrated profile are at risk exactly from the
  moment an opening takes a backup that never was synced and renames over the active file
  (`FoundationStore.LosableStep`, `FoundationStore.LegacyKeptExactly`).
* The checksum constant of an address depends on its version, so one particular error in the first six characters
  turns an address of version 0 into a valid one of version 2 or 14, and back (`SegWit.MistypedAddressRejected`,
  `SegWit.EveryVersionZeroHasTwin`).
* The structural pass refuses every repeated JSON key. The typed reader refuses repetitions of its four keys
  (`Reader.ReadFieldsMeans`) and does not look at others (`Reader.ReaderAgainstSummary`).
* The order of a selection matters exactly when two messages with the same identifiers differ in their reach
  (`DeletionPlan.SelectionOrderDoesNotMatter`).
* A commit may take a job from one ended status to another; it may not take it back to an unfinished one.

## Model

| member | source | states |
|---|---|---|
| `Bech32.Polymod` | crates/cleaner-domain/src/sensitive.rs:278-296 | the loop with its inner tap loop computes the fold of the symbols from 1 |
| `Bech32.StepLinear` | crates/cleaner-domain/src/sensitive.rs:280-294 | one step is linear over GF(2) in the checksum and the symbol together |
| `Bech32.ZeroStepInjective` | crates/cleaner-domain/src/sensitive.rs:280-294 | below 2^30 only zero is sent to zero by a step with a zero symbol |
| `Bech32.FoldLinear` | crates/cleaner-domain/src/sensitive.rs:278-296 | the fold of symbol-wise sums is the sum of the folds, for any start values and any length |
| `Bech32.FoldBound` | crates/cleaner-domain/src/sensitive.rs:278-296 | the checksum stays below 2^30 over symbols below 32, at any length |
| `Bech32.SuffixInjective` | crates/cleaner-domain/src/sensitive.rs:278-296 | different states stay different under any common suffix |
| `Bech32.WindowInjective` | crates/cleaner-domain/src/sensitive.rs:278-296 | from any state, at most six symbols are determined by the resulting checksum |
| `Bech32.BurstDetected` | crates/cleaner-domain/src/sensitive.rs:278-296 | at any length, two symbol sequences that differ only within six consecutive positions have equal checksums only if they are equal |
| `Bech32.ChecksumUnique` | crates/cleaner-domain/src/sensitive.rs:255-268 | every message has exactly one six-symbol checksum for a wanted constant, the computed one |
| `Bech32Field.StepIsPolynomialRemainder` | crates/cleaner-domain/src/sensitive.rs:280-294 | the bit operations are one step of polynomial division over GF(32) by the generator of BIP-173 |
| `Bech32Field.MulAssociative` | crates/cleaner-domain/src/sensitive.rs:278-296 | the multiplication used is associative |
| `Bech32Field.NoZeroDivisors` | crates/cleaner-domain/src/sensitive.rs:278-296 | the multiplication used has no zero divisors, so it is that of a field |
| `Bech32Field.MulCommutative` | crates/cleaner-domain/src/sensitive.rs:278-296 | the multiplication used is commutative |
| `Bech32Distance.TurnsIsTimes` | crates/cleaner-domain/src/sensitive.rs:278-296 | in GF(1024), so many multiplications by a primitive element are one by its power |
| `Bech32Distance.NoFixedPoint` | crates/cleaner-domain/src/sensitive.rs:278-296 | only a multiple of 1023 multiplications by the primitive element leaves a non-zero element unchanged |
| `Bech32Distance.RootsOfGenerator` | crates/cleaner-domain/src/sensitive.rs:278-296 | three consecutive powers of the primitive element are roots of the generator |
| `Bech32Distance.EvaluateStep` | crates/cleaner-domain/src/sensitive.rs:280-294 | seen at a root, one step of the checksum multiplies by the root and adds the symbol |
| `Bech32Distance.NoThreeTerms` | crates/cleaner-domain/src/sensitive.rs:278-296 | three errors that vanish at three consecutive roots are no errors: the elimination of a Vandermonde determinant |
| `Bech32Distance.ThreeErrorsDetected` | crates/cleaner-domain/src/sensitive.rs:278-296 | up to three wrong symbols less than 1023 apart are always detected, at any length |
| `Bech32Distance.TwoErrorsDetected` | crates/cleaner-domain/src/sensitive.rs:278-296 | two wrong symbols less than 1023 apart are always detected, at any length |
| `Bech32Twins.TwinMoves` | crates/cleaner-domain/src/sensitive.rs:262-268 | the twin difference of a data part of 39 or 59 symbols moves the checksum by exactly the difference of the two constants |
| `Bech32Twins.OnlyTwinInWindow` | crates/cleaner-domain/src/sensitive.rs:262-268 | no other difference within the first six symbols does |
| `Bech32Twins.NoTwinOfTwo` | crates/cleaner-domain/src/sensitive.rs:262-268 | no difference of the first symbol and one beyond the sixth does |
| `BitGroups.ConvertToBytes` | crates/cleaner-domain/src/sensitive.rs:298-317 | the 32-bit accumulator that drops high bits still succeeds exactly when all symbols are below 32 and the leftover bits are at most four and zero, and then returns the big-endian regrouping |
| `BitGroups.RegroupUngroup` | crates/cleaner-domain/src/sensitive.rs:298-317 | padding bytes to five-bit groups and regrouping gives the bytes back |
| `BitGroups.UngroupRegroup` | crates/cleaner-domain/src/sensitive.rs:298-317 | regrouping loses nothing: the accepted symbols are recovered from the bytes |
| `SegWit.IsValidData` | crates/cleaner-domain/src/sensitive.rs:255-275 | version, program length, padding and checksum decide the data part |
| `SegWit.IsValidBitcoinSegwitAddress` | crates/cleaner-domain/src/sensitive.rs:218-276 | the whole check accepts exactly the valid addresses: case, separator, prefix, charset, length and data |
| `SegWit.WellFormedMeans` | crates/cleaner-domain/src/sensitive.rs:236-268 | the addresses there are: two networks, seventeen versions, programs of 20 or 32 bytes for version 0 and of 2 to 40 for the others |
| `SegWit.DecodeEncode` | crates/cleaner-domain/src/sensitive.rs:218-276 | every well-formed address encodes to a valid text that decodes to it (BIP-173 and BIP-350 by version) |
| `SegWit.EncodeDecode` | crates/cleaner-domain/src/sensitive.rs:218-276 | every valid text is, in lower case, the encoding of what it decodes to |
| `SegWit.ValidIffEncoding` | crates/cleaner-domain/src/sensitive.rs:218-276 | a text is valid exactly when it is not of mixed case and its lower case is an encoding of a well-formed address |
| `SegWit.ChecksumDecides` | crates/cleaner-domain/src/sensitive.rs:255-268 | exactly one checksum makes a payload valid |
| `SegWit.FewErrorsDetected` | crates/cleaner-domain/src/sensitive.rs:255-268 | data parts that differ in two places or within a window of six have different checksums |
| `SegWit.MistypedAddressRejected` | crates/cleaner-domain/src/sensitive.rs:218-276 | a valid address with two wrong characters, or any number within six consecutive ones, stays valid exactly when nothing changed or it became its twin, whose version is 0 where the other's is not |
| `SegWit.TwoErrorsAreNoTwins` | crates/cleaner-domain/src/sensitive.rs:218-276 | two wrong characters never lead to a twin, so they are always found |
| `SegWit.EveryVersionZeroHasTwin` | crates/cleaner-domain/src/sensitive.rs:218-276 | every valid address of version 0 has a valid twin, of version 2 for a 20-byte program and of version 14 for a 32-byte one |
| `SegWit.ThreeErrorsRejected` | crates/cleaner-domain/src/sensitive.rs:218-276 | three wrong characters never lead to another valid address, unless they take the version to or from 0 |
| `PublishedAddresses.PublishedVersionZero` | crates/cleaner-domain/src/sensitive.rs:218-296 | the version 0 address of BIP-173 is valid, character by character |
| `PublishedAddresses.PublishedVersionOne` | crates/cleaner-domain/src/sensitive.rs:218-296 | the version 1 address of BIP-350 is valid, character by character |
| `SegWit.SmallLetters` | crates/cleaner-domain/src/sensitive.rs:220-232 | the small letters, one by one |
| `SegWit.CapitalLetters` | crates/cleaner-domain/src/sensitive.rs:220-232 | the capitals, one by one |
| `SegWit.ToLowerMeans` | crates/cleaner-domain/src/sensitive.rs:220-232 | a capital is replaced by the small letter of the same place in the alphabet, and nothing else is |
| `Base58.MultiplyAdd` | crates/cleaner-domain/src/sensitive.rs:329-338 | the carry loop multiplies the little-endian number by 58 and adds the digit, keeping it without leading zero bytes |
| `Base58.CarryStep` | crates/cleaner-domain/src/sensitive.rs:330-334 | the carry never exceeds 57, and each byte keeps the value |
| `Base58.DecodeBase58` | crates/cleaner-domain/src/sensitive.rs:323-350 | decoding succeeds exactly on texts over the alphabet and returns the big-endian bytes of the base-58 value, one zero byte per leading 1 |
| `Base58.DecodedEncode` | crates/cleaner-domain/src/sensitive.rs:323-350 | decoding undoes the reference encoder on all byte strings |
| `Base58.EncodeDecoded` | crates/cleaner-domain/src/sensitive.rs:323-350 | the reference encoder undoes decoding on all accepted texts |
| `Base58.DecodingIsInjective` | crates/cleaner-domain/src/sensitive.rs:323-350 | different texts decode to different bytes |
| `Checksums.WrongDigitDetected` | crates/cleaner-domain/src/sensitive.rs:145-160 | one wrong digit anywhere in a Luhn-valid number is detected |
| `Checksums.SwapDetected` | crates/cleaner-domain/src/sensitive.rs:145-160 | exchanged neighbours are detected exactly unless they are equal or a zero and a nine |
| `Checksums.LuhnFromTheRight` | crates/cleaner-domain/src/sensitive.rs:145-160 | from the right a digit counts as it is, the next one by the digits of its double, and so on |
| `Checksums.CheckIban` | crates/cleaner-domain/src/sensitive.rs:162-188 | the running remainder accepts exactly the texts of digits and capitals whose rearranged decimal value is 1 modulo 97, without overflowing 32 bits |
| `Checksums.ValueAppend` | crates/cleaner-domain/src/sensitive.rs:174-185 | the decimal value of a concatenation, letters counting for two digits |
| `Checksums.WrongCharacterDetected` | crates/cleaner-domain/src/sensitive.rs:174-187 | one character mistyped for another of its kind is detected |
| `Checksums.ExchangeDetected` | crates/cleaner-domain/src/sensitive.rs:174-187 | two different neighbours of the same kind exchanged are detected |
| `Checksums.WorthListed` | crates/cleaner-domain/src/sensitive.rs:176-182 | digits are worth themselves, and the letters A to Z ten to thirty-five |
| `Checksums.KnownAccount` | crates/cleaner-domain/src/sensitive.rs:162-187 | a published account number passes, which fixes what a letter is worth |
| `Decimal.DecimalScanner.constructor` | crates/discord-archive/src/structure.rs:668-676 | a scanner starts outside any literal |
| `Decimal.DecimalScanner.FirstDigit` | crates/discord-archive/src/structure.rs:679-683 | the first digit starts the integer and fixes whether there is a leading zero |
| `Decimal.DecimalScanner.Push` | crates/discord-archive/src/structure.rs:685-724 | one byte takes the scanner through exactly the automaton's transition |
| `Decimal.ClassifyDecimal` | crates/discord-archive/src/structure.rs:745-751 | scanning a text byte by byte gives its class |
| `Decimal.AcceptedIffDecimal` | crates/discord-archive/src/structure.rs:678-743 | the automaton accepts exactly the texts of the grammar of spaces, sign, digits, point and exponent |
| `Decimal.ClassifyMeans` | crates/discord-archive/src/structure.rs:678-751 | each of the five classes is exactly its declared set: prints of positive numbers below 2^64, zero, larger prints, other decimals, everything else |
| `Decimal.PlainIffPrint` | crates/discord-archive/src/structure.rs:699-704 | digits without a leading zero are exactly the decimal prints of numbers |
| `Decimal.ScannedDigits` | crates/discord-archive/src/structure.rs:694-704 | after a run of digits the accumulated value is the number, or none once it passes 2^64 |
| `Decimal.IdentifierRoundTrip` | crates/discord-archive/src/record.rs:11-17 | the print of every identifier is accepted and reads back as that identifier |
| `Decimal.IdentifierIsPrint` | crates/discord-archive/src/record.rs:11-17 | every accepted identifier is the print of the number it stands for |
| `Decimal.CharactersListed` | crates/discord-archive/src/structure.rs:684-716 | the bytes of the automaton by their numbers |
| `Calendar.FieldsIffPrinted` | crates/discord-archive/src/structure.rs:765-791 | the fixed part parses to a moment exactly when the moment is valid and the text is its zero-padded print |
| `Calendar.ZoneOfMeans` | crates/discord-archive/src/structure.rs:814-826 | the zone parser accepts exactly no zone, Z, and a signed offset of at most 23:59 other than -00:00 |
| `Calendar.ClassifyTimestampMeans` | crates/discord-archive/src/structure.rs:760-832 | a text has a calendar grammar exactly when it is the print of a valid moment with that separator, fraction and zone |
| `Calendar.TwoDigits` | crates/discord-archive/src/structure.rs:765-791 | two digits are written and read with the tens first |
| `Calendar.FourDigits` | crates/discord-archive/src/structure.rs:765-791 | four digits likewise |
| `Snowflake.DayAdvances` | crates/discord-archive/src/record.rs:98-110 | the day formula advances by exactly one from every valid date to the next |
| `Snowflake.DayMonotone` | crates/discord-archive/src/record.rs:98-110 | the day formula is strictly monotone in the date |
| `Snowflake.DayInjective` | crates/discord-archive/src/record.rs:98-110 | different dates have different day numbers |
| `Snowflake.DayOfDateAfter` | crates/discord-archive/src/record.rs:98-110 | counting dates one by one from any date agrees with the day formula |
| `Snowflake.MomentAtIsValid` | crates/discord-archive/src/record.rs:98-116 | every second counted from 2015-01-01 00:00:00 is the second of a valid calendar moment |
| `Snowflake.EpochsAnchored` | crates/discord-archive/src/record.rs:98-110 | day 0 is 1970-01-01, and identifiers count from the first millisecond of 2015-01-01 |
| `Snowflake.FirstSecond` | crates/discord-archive/src/record.rs:81-130 | the identifiers of the first second, below 1000 times 2^22, accept the text 2015-01-01 00:00:00 and no other |
| `Snowflake.ExactlyOneTimestamp` | crates/discord-archive/src/record.rs:81-130 | for every identifier exactly one text is accepted as its timestamp, the calendar print of its second counted from 2015-01-01 00:00:00, and the milliseconds are read from its bits above the lowest 22 |
| `LexicalGuard.Observer.constructor` | crates/discord-archive/src/structure.rs:853-874 | an observer starts outside strings at depth zero |
| `LexicalGuard.Observer.ObserveRecord` | crates/discord-archive/src/structure.rs:879-890 | record bytes are counted inside a root array and limited |
| `LexicalGuard.Observer.ObserveStringByte` | crates/discord-archive/src/structure.rs:891-899 | escapes and the end of a string are tracked, its raw length limited |
| `LexicalGuard.Observer.ObserveLiteralByte` | crates/discord-archive/src/structure.rs:921-934 | a byte outside strings extends the literal run and its scanner |
| `LexicalGuard.Observer.ObserveMark` | crates/discord-archive/src/structure.rs:901-920 | quotes, brackets and separators outside strings end a literal run, and brackets change the depth, within its limit |
| `LexicalGuard.Observer.Observe` | crates/discord-archive/src/structure.rs:878-938 | a byte is accepted exactly when every limit still holds, and then takes the state one step further |
| `LexicalGuard.TokensOfText` | crates/discord-archive/src/structure.rs:878-938 | the declarative lexer splits every text into well-formed tokens that spell it |
| `LexicalGuard.TokensUnique` | crates/discord-archive/src/structure.rs:878-938 | no other well-formed tokens spell it |
| `LexicalGuard.GuardRefinesLexer` | crates/discord-archive/src/structure.rs:878-938 | on every text the guard's string, escape and literal state, depth and published number class are those of the lexer |
| `LexicalGuard.DepthIsExact` | crates/discord-archive/src/structure.rs:908-916 | the saturating depth is opened minus closed plus the largest excess of closing brackets in a prefix, so it is opened minus closed exactly when no prefix closes more than it opened |
| `LexicalGuard.GuardCountsRecords` | crates/discord-archive/src/structure.rs:879-890 | the record counter is the number of bytes since the root array's last separator |
| `LexicalGuard.RecordIsWhole` | crates/discord-archive/src/structure.rs:883-890 | inside a root array a record is counted byte for byte from its start |
| `LexicalGuard.LiteralPublished` | crates/discord-archive/src/structure.rs:905-934 | after any text that ends outside a string, one of the ten marks and whitespace bytes, and a run of other bytes, the guard publishes the class of the run and has counted its bytes |
| `LexicalGuard.MarkByte` | crates/discord-archive/src/structure.rs:905-920 | outside strings each of the ten marks and whitespace bytes ends a literal, the opening brackets raise the depth by one, the closing ones lower it down to zero, and the others leave it |
| `LexicalGuard.QuotedBody` | crates/discord-archive/src/structure.rs:891-904 | a quote outside a string starts one, whose body is counted byte for byte and changes neither the depth nor the published class |
| `LexicalGuard.EscapeAndEnd` | crates/discord-archive/src/structure.rs:891-899 | a backslash protects the byte after it, and only an unprotected quote ends the string |
| `LexicalGuard.DocumentStarts` | crates/discord-archive/src/structure.rs:879-890 | the first byte that is none of the five whitespace bytes starts the document, and decides whether its root is an array |
| `LexicalGuard.FitsIffWithinLimits` | crates/discord-archive/src/structure.rs:878-938 | the checks of the guard hold exactly when the text so far is within the limits |
| `LexicalGuard.ReadThrough` | crates/discord-archive/src/structure.rs:941-954 | a stream is read up to the first byte that breaks a limit and no further |
| `LexicalGuard.AllTokensWithin` | crates/discord-archive/src/structure.rs:878-938 | in an accepted text every string, literal and depth is within its limit |
| `Shapes.MergeInto` | crates/discord-archive/src/structure.rs:357-379 | the in-place merge over the incoming fields computes the merge |
| `Shapes.MergeCommutative` | crates/discord-archive/src/structure.rs:357-379 | merging does not depend on the order of the two shapes |
| `Shapes.MergeAssociative` | crates/discord-archive/src/structure.rs:357-379 | nor on their grouping |
| `Shapes.MergeIdempotent` | crates/discord-archive/src/structure.rs:357-379 | a shape merged with itself is itself |
| `Shapes.MergeUnits` | crates/discord-archive/src/structure.rs:357-379 | Mixed absorbs, an unobserved item is neutral among arrays, and objects unite their keys |
| `Shapes.FoldAppend` | crates/discord-archive/src/structure.rs:590-609 | folding two lists of items one after the other merges their folds |
| `Shapes.FoldPermutation` | crates/discord-archive/src/structure.rs:590-609 | the item fold is the same for any order of the items |
| `Budgets.Meter.constructor` | crates/discord-archive/src/structure.rs:313-322 | a pass goes on from the tokens used before it |
| `Budgets.Meter.Token` | crates/discord-archive/src/structure.rs:409-413 | one more token is refused exactly when it is one too many |
| `Budgets.Meter.Scalar` | crates/discord-archive/src/structure.rs:403-407 | a scalar is refused exactly when it is too wide or the record has decoded too many bytes |
| `Structure.RetainedWithout` | crates/discord-archive/src/structure.rs:415-438 | the charges of a table are those of any one node and of the rest |
| `Structure.RetainedAdd` | crates/discord-archive/src/structure.rs:178-204 | adding to a node raises the charges of the table by the new path and the new grammars, and by nothing else |
| `Structure.SeqStep` | crates/discord-archive/src/structure.rs:590-609 | the items of an array fit their budgets exactly when the first one does and then, after it, the others |
| `Structure.MapStep` | crates/discord-archive/src/structure.rs:610-630 | the fields of an object fit exactly when the first key is new and fits, then its value, then the others |
| `Structure.Prober.constructor` | crates/discord-archive/src/structure.rs:313-322 | the table starts empty and nothing is charged |
| `Structure.Prober.AddAt` | crates/discord-archive/src/structure.rs:415-493 | statistics are added at one path only, exactly if the charges for what is new in the table stay within the limit |
| `Structure.Prober.Enter` | crates/discord-archive/src/structure.rs:515-533 | entering a value costs a token, a level, a node, and the bytes and grammars of a scalar |
| `Structure.Prober.Visit` | crates/discord-archive/src/structure.rs:502-589 | a value is visited without an error exactly when no object in it repeats a key and the token, depth, scalar, decoded and retained budgets all last, and gives its shape and statistics |
| `Structure.Prober.VisitSeq` | crates/discord-archive/src/structure.rs:590-609 | the same for the items of an array, merged into one item shape |
| `Structure.Prober.VisitMap` | crates/discord-archive/src/structure.rs:610-630 | the same for the fields of an object |
| `Structure.SegmentInjective` | crates/discord-archive/src/structure.rs:616-620 | different keys have different path segments, and none is the segment of items |
| `Structure.SummaryCounts` | crates/discord-archive/src/structure.rs:440-493 | a summary counts the values, and those of every kind |
| `Structure.SummaryGrammars` | crates/discord-archive/src/structure.rs:440-493 | and has seen exactly the grammars of their numbers and strings |
| `Structure.VisitNodesGain` | crates/discord-archive/src/structure.rs:502-630 | visiting a value adds, at every path, exactly the summary of the values it has there |
| `Structure.NodesMeanValues` | crates/discord-archive/src/structure.rs:502-630 | after a document, the statistics at every path are the summary of all values at that path |
| `MissingKeys.MissingMeans` | crates/discord-archive/src/structure.rs:330-348 | in every document without repeated keys, a key is missing at a path as often as there are objects without it, and items never are |
| `DocumentCosts.CostMeans` | crates/discord-archive/src/structure.rs:395-414 | a document costs a token for every value and key, the bytes of all scalars and keys, and the widest of them |
| `DocumentCosts.HeightMeans` | crates/discord-archive/src/structure.rs:500-511 | the depth of a document is one more than its longest path to a value |
| `DocumentCosts.ChargesMean` | crates/discord-archive/src/structure.rs:415-424 | a node is charged for its path, and for every grammar by its size |
| `Profile.InspectDocument` | crates/discord-archive/src/structure.rs:284-355 | a summary exists exactly for documents without repeated keys within all budgets, and it has used the tokens of the document |
| `Profile.Transcript` | crates/discord-archive/src/profile.rs:233-289 | the decision looks only at the summary |
| `Profile.MissingCounts` | crates/discord-archive/src/structure.rs:333-348 | a key is missing nowhere exactly when it occurs in every object |
| `Profile.MergedKey` | crates/discord-archive/src/profile.rs:233-289 | the merged item shape has a key with a scalar shape exactly when all items are objects and all its values have that shape |
| `Profile.KeyOkMeans` | crates/discord-archive/src/profile.rs:233-289 | the check of one required key on the summary means that every item has it with the right kind and grammar |
| `Profile.DecisionMeansTranscript` | crates/discord-archive/src/profile.rs:233-289 | for every document without repeated keys, the decision on the one-pass summary accepts exactly the arrays of objects with a canonical ID, a plain second-precision Timestamp, and string Contents and Attachments; it calls the profile unsupported exactly if the root is no array of objects |
| `Reader.SkipValue` | crates/discord-archive/src/reader.rs:495-537 | an ignored value is counted like any other, and passes exactly when its tokens and bytes fit |
| `Reader.SkipItems` | crates/discord-archive/src/reader.rs:526-529 | so do the items of an ignored array |
| `Reader.SkipFields` | crates/discord-archive/src/reader.rs:530-536 | and the keys and values of an ignored object |
| `Reader.ReadKey` | crates/discord-archive/src/reader.rs:373-396 | a key costs a token and its bytes |
| `Reader.ReadValue` | crates/discord-archive/src/reader.rs:418-443 | a value is taken exactly when its key admits it and its cost fits |
| `Reader.ReadKeys` | crates/discord-archive/src/reader.rs:415-443 | the key loop with its mask of seen keys takes exactly the readable keys whose cost fits |
| `Reader.FieldErrors` | crates/discord-archive/src/reader.rs:415-443 | which error a refused key gets: an author, a repetition, a value of the wrong type, or an identifier not written canonically |
| `Reader.FinishErrors` | crates/discord-archive/src/reader.rs:444-455 | a record whose keys were all read is refused for what is missing or does not agree |
| `Reader.ReadRecord` | crates/discord-archive/src/reader.rs:415-453 | a record is read exactly when it is readable and its tokens and decoded bytes fit |
| `Reader.ReadTranscript` | crates/discord-archive/src/reader.rs:344-362 | a transcript is read exactly when it is an array whose records are all read within the budgets and taken by the sink; in any case the sink was handed the records before the first failure, in order |
| `Reader.AllTakenMeans` | crates/discord-archive/src/reader.rs:344-362 | that is exactly when all records are readable, the tokens last for all together, every record keeps its own budgets, and the sink takes each after the ones before it |
| `Reader.ReadFieldsMeans` | crates/discord-archive/src/reader.rs:415-443 | the key loop accepts exactly the fields without an author key whose values are what their keys want and in which each of the four keys comes at most once, counting what is stored; it keeps their texts |
| `Reader.ReadMessageMeans` | crates/discord-archive/src/reader.rs:415-453 | a record is accepted exactly when each of its four keys comes once, well typed, no key names an author, and its timestamp is the one of its ID |
| `Reader.CleanMeans` | crates/discord-archive/src/reader.rs:418-421 | what keeps a record clean, key by key: no ignored key repeats, and none holds a repeated key |
| `Reader.ReaderAgainstSummary` | crates/discord-archive/src/reader.rs:339-453 | on every document: what the structural pass accepts, the reader accepts exactly when all records are authentic; what the reader accepts, the structural pass accepts exactly when no ignored key repeats or holds a repeated key |
| `Reader.RepeatedOtherKey` | crates/discord-archive/src/reader.rs:418-421 | any ignored key put in front of a record twice leaves the reader's answer as it was and makes the structural pass refuse |
| `Reader.ReaderStaysWithin` | crates/discord-archive/src/reader.rs:259-362 | a transcript that the structural pass accepted within its budgets never takes the reader over its own |
| `PathTrie.PathIndex.constructor` | crates/discord-archive/src/inventory.rs:181-191 | an index starts with the root only |
| `PathTrie.PathIndex.Step` | crates/discord-archive/src/inventory.rs:208-236 | one path part is entered or refused: another spelling, a file among ancestors, or the same entry again |
| `PathTrie.PathIndex.ValidateName` | crates/discord-archive/src/inventory.rs:187-241 | a name is accepted exactly when it is well formed and fits the tree, which then grows by it |
| `PathTrie.CompatibleIffAgree` | crates/discord-archive/src/inventory.rs:208-236 | two names are compatible exactly when they agree at every shared level |
| `PathTrie.AllFitMeans` | crates/discord-archive/src/inventory.rs:208-236 | a name fits a tree exactly when it is compatible with every name in it |
| `PathTrie.GrownRepresents` | crates/discord-archive/src/inventory.rs:208-236 | the grown tree represents one name more |
| `PathTrie.ValidateAll` | crates/discord-archive/src/inventory.rs:187-241 | a list is accepted exactly when every name is well formed and all pairs are compatible |
| `PathTrie.CompatibleSymmetric` | crates/discord-archive/src/inventory.rs:208-236 | compatibility does not depend on which name came first |
| `PathTrie.OrderDoesNotMatter` | crates/discord-archive/src/inventory.rs:187-241 | acceptance does not depend on the order of the entries |
| `PathTrie.FoldMeans` | crates/discord-archive/src/inventory.rs:162-182 | names fold to the same exactly when they differ at most in the case of ASCII letters |
| `PathTrie.CaseCollides` | crates/discord-archive/src/inventory.rs:187-241 | two names that differ at most in the case of letters are never both accepted |
| `EntryNames.WellFormedIffWritten` | crates/discord-archive/src/inventory.rs:187-241 | a name is well formed exactly when it is written from parts of the grammar, which are the parts it is read as |
| `ZipDirectory.ExtraFields` | crates/discord-archive/src/inventory.rs:135-154 | the extra-field loop accepts exactly complete fields without the Zip64 one |
| `ZipDirectory.CheckHeader` | crates/discord-archive/src/inventory.rs:317-345 | a central header lies whole within the directory |
| `ZipDirectory.CheckCentral` | crates/discord-archive/src/inventory.rs:348-372 | features, sizes, attributes and the per-entry expansion ratio of a central header |
| `ZipDirectory.CheckLocal` | crates/discord-archive/src/inventory.rs:373-405 | the local header repeats the central one and its record ends before the directory |
| `ZipDirectory.WalkDirectory` | crates/discord-archive/src/inventory.rs:310-431 | the walk succeeds exactly when the directory bytes are used up by the declared entries, all are acceptable, totals are within limits and the records tile the file |
| `ZipDirectory.CheckTiling` | crates/discord-archive/src/inventory.rs:420-431 | sorting and comparing neighbours decides whether every byte up to the directory is in exactly one record |
| `ZipDirectory.SortedCounts` | crates/discord-archive/src/inventory.rs:420-431 | sorting keeps how many ranges hold a byte |
| `ZipDirectory.ChainIffTiles` | crates/discord-archive/src/inventory.rs:420-431 | a sorted chain of non-empty ranges from 0 to the end is the same as an exact cover |
| `ZipDirectory.FindEnd` | crates/discord-archive/src/inventory.rs:258-267 | the last end record within the comment limit is found, if there is one |
| `ZipDirectory.Inspect` | crates/discord-archive/src/inventory.rs:243-460 | an archive is accepted exactly when its end record, directory and records are in order and the decoder counts the same entries in what it is shown |
| `ZipDirectory.OneEndInView` | crates/discord-archive/src/inventory.rs:302-309 | what the decoder is shown has no end record but the checked one, and no Zip64 one |
| `ZipDirectory.EveryByteHasOneOwner` | crates/discord-archive/src/inventory.rs:288-431 | in an accepted archive every byte belongs to exactly one record, the directory, or the end record |
| `ZipDirectory.RecordsAreDisjoint` | crates/discord-archive/src/inventory.rs:420-431 | no byte is in two records |
| `ZipDirectory.FieldsAreLittleEndian` | crates/discord-archive/src/inventory.rs:128-133 | a field counts its two or four bytes in base 256, the least significant first |
| `ZipLayout.PlainExtraMeans` | crates/discord-archive/src/inventory.rs:135-154 | the loop over extra fields accepts exactly the areas written from plain ones |
| `ZipLayout.CentralMeans` | crates/discord-archive/src/inventory.rs:317-372 | a directory entry is accepted exactly when one stands there, field by field as in the table of the format, that is plain |
| `ZipLayout.LocalMeans` | crates/discord-archive/src/inventory.rs:373-405 | a local record is accepted exactly when it stands where the entry says, repeats its fields, and ends before the directory |
| `ZipLayout.DirectoryMeans` | crates/discord-archive/src/inventory.rs:310-431 | the walk accepts exactly the directories that are filled with plain entries whose records cover the file up to it, and returns their names |
| `ZipLayout.AcceptedIffLaidOut` | crates/discord-archive/src/inventory.rs:243-460 | an archive is accepted exactly when the whole file is laid out from plain entries, a directory and one end record, and nothing else |
| `ArchiveReaders.DirectoryView.Read` | crates/discord-archive/src/inventory.rs:574-604 | a read copies exactly the next bytes of zeros followed by the directory, at most 8192, and leaves the rest of the buffer alone |
| `ArchiveReaders.DirectoryView.Seek` | crates/discord-archive/src/inventory.rs:606-626 | a seek goes to every 64-bit position and refuses the others without moving |
| `ArchiveReaders.ObservedReader.Read` | crates/discord-archive/src/inventory.rs:639-666 | a read is good exactly when the bytes so far keep every budget; an error is remembered |
| `ArchiveReaders.WithinMeans` | crates/discord-archive/src/inventory.rs:639-666 | the limits on an entry one by one, with sums and products that stay within 64 bits |
| `ArchiveReaders.Consume` | crates/discord-archive/src/inventory.rs:514-561 | whatever the parser reads, an entry is validated exactly when every read was good and the bytes are exactly the declared ones within all budgets |
| `GrammarSets.GrammarSet.Observe` | crates/discord-archive/src/structure.rs:183-207 | the sorted list gains a new grammar once, against the budget, and is unchanged otherwise |
| `GrammarSets.BinarySearch` | crates/discord-archive/src/structure.rs:190-196 | the search finds a grammar or the place where it belongs |
| `FrozenBatches.Driver.constructor` | src-tauri/src/providers/lifecycle.rs:54-72 | a driver that answers from an arbitrary script, with a record of its calls |
| `FrozenBatches.Preflight` | src-tauri/src/providers/lifecycle.rs:94-106 | targets are asked in order up to the first error |
| `FrozenBatches.Attempt` | src-tauri/src/providers/lifecycle.rs:90-154 | one pass of the retry loop takes the machine from the start of a batch to its next attempt, the next batch, or the end |
| `FrozenBatches.RunFrozenBatches` | src-tauri/src/providers/lifecycle.rs:84-157 | for every script of answers the nested loops make the calls, and return the value, of the one-answer-at-a-time machine |
| `FrozenRuns.EventAt` | src-tauri/src/providers/lifecycle.rs:84-157 | every call of a run is the call of the phase reached by the answers before it |
| `FrozenRuns.MutatesOnlyGranted` | src-tauri/src/providers/lifecycle.rs:94-121 | a mutation takes exactly the targets granted, in order, by a full preflight of its batch between two cancellation checks answered no |
| `FrozenRuns.GrantedExactly` | src-tauri/src/providers/lifecycle.rs:97-106 | the granted targets are those answered with yes |
| `FrozenRuns.ReportsAccount` | src-tauri/src/providers/lifecycle.rs:110-146 | every report's skipped, deleted, failed and uncertain add up to the size of its batch, whatever was retried, and say what the last attempt did, with its error and whether it is fatal |
| `FrozenRuns.FailuresAreRetried` | src-tauri/src/providers/lifecycle.rs:122-129 | an error with a retry, of a preflight or of a mutation, is waited out, and one without is reported; nothing else follows it, and the run does not end there |
| `FrozenRuns.WaitsOnlyToRetry` | src-tauri/src/providers/lifecycle.rs:122-129 | every wait follows such an error |
| `FrozenRuns.BatchIsCursor` | src-tauri/src/providers/lifecycle.rs:84-146 | every target asked about and every batch mutated is of the batch that the next report is for |
| `FrozenRuns.PassAsksFirst` | src-tauri/src/providers/lifecycle.rs:89-97 | a pass over a batch, the first and those after a wait, asks about its targets from the first one on |
| `FrozenRuns.AskedInTurn` | src-tauri/src/providers/lifecycle.rs:94-106 | targets are asked about in turn, up to the first error or the last of the batch |
| `FrozenRuns.GrantedAreMutated` | src-tauri/src/providers/lifecycle.rs:107-121 | what a full preflight granted is mutated, and if it is nothing the attempt is reported |
| `FrozenRuns.ReturnsExactly` | src-tauri/src/providers/lifecycle.rs:84-157 | what a run returns, in every case, by its last call |
| `FrozenRuns.CursorAdvancesByOne` | src-tauri/src/providers/lifecycle.rs:132-146 | the m-th report moves the cursor to the start plus m |
| `FrozenRuns.CompleteRunAccountsForAll` | src-tauri/src/providers/lifecycle.rs:84-157 | a run that ends without stopping has reported every batch and accounted for every target once |
| `FrozenRuns.NothingAfterHalt` | src-tauri/src/providers/lifecycle.rs:91-152 | nothing is called after an observed cancellation or an error that is passed on |
| `FrozenRuns.FatalReportEnds` | src-tauri/src/providers/lifecycle.rs:130-152 | a fatal report is followed by at most one cancellation check |
| `FrozenRuns.NoMutationAfterFatal` | src-tauri/src/providers/lifecycle.rs:122-152 | no mutation follows a fatal error that is not retried |
| `FrozenRuns.SucceedsAtMostOnce` | src-tauri/src/providers/lifecycle.rs:84-157 | after a batch was mutated with success only later batches are mutated |
| `FrozenRuns.StopsExactlyOnFatal` | src-tauri/src/providers/lifecycle.rs:50-52 | the promise to stop on uncertainty holds of an error exactly when the driver calls it fatal and offers no retry: then no run mutates afterwards, otherwise some run does |
| `DeletionPlan.CollectPlanItems` | crates/cleaner-domain/src/lib.rs:525-557 | the first bad identifier decides the error; otherwise the first message of every key is kept, with its counts |
| `DeletionPlan.FirstOfEachMeans` | crates/cleaner-domain/src/lib.rs:535-554 | an item is in the plan exactly when it is the first message with its key |
| `DeletionPlan.FirstOfEachKeys` | crates/cleaner-domain/src/lib.rs:535-554 | keys are distinct and none is lost |
| `DeletionPlan.SummaryAddsUp` | crates/cleaner-domain/src/lib.rs:537-555 | selected is the sum of the three reaches |
| `DeletionPlan.SortMeans` | crates/cleaner-domain/src/lib.rs:408 | sorting distinct items gives them in strictly ascending order with the same counts |
| `DeletionPlan.Finish` | crates/cleaner-domain/src/lib.rs:401-430 | a finished plan has the same items, strictly ascending |
| `DeletionPlan.SelectedMessages` | crates/cleaner-domain/src/lib.rs:226-241 | a selection is planned exactly when it is not empty, not too large, has good identifiers only and something to delete for everyone |
| `DeletionPlan.SelectionOrderDoesNotMatter` | crates/cleaner-domain/src/lib.rs:525-557 | all selections of the same messages, in any order and repeated or not, give the same items exactly when messages with the same identifiers agree on their reach |
| `PlanFingerprint.ContentsInjective` | crates/cleaner-domain/src/lib.rs:602-606 | the bytes that go into the fingerprint determine the items and their order |
| `PlanFingerprint.FingerprintBindsItems` | crates/cleaner-domain/src/lib.rs:578-614 | with a digest without collisions, plans of one operation have the same fingerprint exactly when they have the same items |
| `PlanFingerprint.FingerprintOfSelection` | crates/cleaner-domain/src/lib.rs:226-241 | two selections have the same fingerprint exactly when the first messages of every key are the same |
| `Batches.GroupByChat` | crates/cleaner-domain/src/lib.rs:436-446 | the everyone-reach messages of every chat, in order |
| `Batches.EveryoneBatches` | crates/cleaner-domain/src/lib.rs:432-458 | batch sizes from 1 to 100 only; the chunks of every chat, in ascending order of chats |
| `Batches.BatchesInOrder` | crates/cleaner-domain/src/lib.rs:432-458 | for items ordered by chat the batches one after the other are the everyone-reach items in order |
| `Batches.BatchesFit` | crates/cleaner-domain/src/lib.rs:450-455 | every batch is of one chat and has between 1 and k messages |
| `Batches.NoFewerBatches` | crates/cleaner-domain/src/lib.rs:448-456 | no division into single-chat batches of at most k has fewer |
| `PlanExecution.FrozenHoldsWanted` | crates/cleaner-domain/src/lib.rs:401-458 | the batches of a finished plan hold exactly its everyone-reach items, each once, as many as the summary says |
| `PlanExecution.MutatesOnlyReviewed` | src-tauri/src/providers/lifecycle.rs:84-157 | no run over a plan's batches mutates anything but reviewed everyone-reach items |
| `PlanExecution.NeverTwice` | src-tauri/src/providers/lifecycle.rs:84-157 | a message deleted with success is never mutated again |
| `PlanExecution.ResumedRunAccountsForAll` | src-tauri/src/providers/lifecycle.rs:84-157 | a run that stopped anywhere and one resumed at its cursor account together for exactly the everyone-reach count of the summary |
| `CanonicalJson.OrderedIffSame` | crates/retract-domain/src/plans.rs:194-209 | two documents have the same canonical form exactly when they are equal up to the order of object keys |
| `CanonicalJson.OrderedIsSame` | crates/retract-domain/src/plans.rs:194-209 | the canonical form is the document itself up to key order, and its own canonical form |
| `RemediationPlan.CanonicalTargets` | crates/retract-domain/src/plans.rs:211-225 | targets are accepted exactly when all are in scope and no identity stands for two references; the first problem decides the error |
| `RemediationPlan.CanonicalKeeps` | crates/retract-domain/src/plans.rs:211-225 | the canonical list has every reference once and is its own canonical list |
| `RemediationPlan.CanonicalOfSet` | crates/retract-domain/src/plans.rs:211-225 | the canonical list depends only on which references are listed |
| `RemediationPlan.SameCanonRef` | crates/retract-domain/src/plans.rs:194-209 | references have the same canonical form exactly when they differ at most in key order |
| `RemediationPlan.BoundIffSame` | crates/retract-domain/src/plans.rs:161-191 | plans are bound to the same exactly when they agree field by field, up to key order |
| `PlanRules.BoundedMeansReadable` | crates/retract-domain/src/identity.rs:174-176 | a text is accepted exactly when it has at most so many bytes in UTF-8, a code point without the property White_Space, and none of a control character |
| `PlanRules.WhiteSpaceListed` | crates/retract-domain/src/identity.rs:174-176 | the 25 code points that count as white space, one by one |
| `PlanRules.ControlsListed` | crates/retract-domain/src/identity.rs:174-176 | the 65 control characters by their code points |
| `PlanRules.Utf8Decodes` | crates/retract-domain/src/identity.rs:174-176 | the bytes that are counted give the code point back |
| `PlanRules.NoErrorMeansBelongs` | crates/retract-domain/src/identity.rs:111-155 | a reference is accepted exactly when it belongs to the scope under the identity derived from what it is |
| `PlanRules.RefErrorKinds` | crates/retract-domain/src/identity.rs:144-155 | a reference is refused for its scope exactly when scope, provider or account differ, and otherwise as invalid |
| `PlanRules.AdmissibleMeans` | crates/retract-domain/src/actions.rs:72-89 | an action is accepted exactly when it may be taken now, with what is required of destruction and of resuming |
| `PlanRules.SufficesMeans` | crates/retract-domain/src/plans.rs:142-159 | a confirmation suffices exactly when it is as strict as every step, acknowledged, authenticated and, from High on, with a text |
| `PlanRules.SealableMeans` | crates/retract-domain/src/plans.rs:96-160 | the two passes over a plan accept exactly the plans that are in order, by their own fields and in numbers |
| `Sealing.PlanBuffer.constructor` | crates/retract-domain/src/plans.rs:71-73 | a working copy of a plan |
| `Sealing.PlanBuffer.Normalize` | crates/retract-domain/src/plans.rs:96-160 | normalization succeeds exactly on plans whose parts are valid, whose steps touch exactly the plan's targets, and whose confirmation suffices |
| `Sealing.PlanBuffer.NormalizeSteps` | crates/retract-domain/src/plans.rs:107-134 | the loop over the steps collects their targets and the strictest tier |
| `Sealing.NormalizeStep` | crates/retract-domain/src/plans.rs:110-132 | a step is accepted exactly when its action is admissible and its targets are acceptable and within the limits |
| `Sealing.PlanBuffer.Seal` | crates/retract-domain/src/plans.rs:71-77 | sealing replaces the plan by its canonical form with the fingerprint, or leaves it as it was |
| `Sealing.PlanBuffer.Validate` | crates/retract-domain/src/plans.rs:78-95 | a plan validates exactly when it is sealable, listed canonically and carries the fingerprint of its binding |
| `Sealing.SealedIsValid` | crates/retract-domain/src/plans.rs:71-95 | what seals then validates, and sealing again changes nothing |
| `Sealing.ValidIffSealedAlready` | crates/retract-domain/src/plans.rs:71-95 | a plan validates exactly when sealing it would change nothing but key order |
| `Sealing.FingerprintBindsPlan` | crates/retract-domain/src/plans.rs:161-191 | with a digest without collisions, valid plans have the same fingerprint exactly when all their fields are equal, payloads and targets up to key order |
| `Sealing.EditedPlanIsRefused` | crates/retract-domain/src/plans.rs:85-95 | whatever is edited in a sealed plan, it does not validate under the old fingerprint |
| `Sealing.OrderDoesNotMatter` | crates/retract-domain/src/plans.rs:71-77 | within the limits, drafts that list the same targets in any order and number both seal or neither does, to the same plan and fingerprint up to key order |
| `Sealing.SameListIffSameSet` | crates/retract-domain/src/plans.rs:135-141 | comparing canonical lists compares the sets of references |
| `StateValidation.Validate` | src-tauri/src/persistence/model.rs:214-322 | the loops over maps and sets decide exactly whether a state is valid |
| `StateValidation.CheckPlans` | src-tauri/src/persistence/model.rs:247-264 | plans are sealed, owned, distinct, and no resource identity stands for two resources |
| `StateValidation.CheckJobs` | src-tauri/src/persistence/model.rs:266-285 | jobs fit their plans, are owned, distinct, within the batch count, and agree on resources |
| `StateValidation.CheckJob` | crates/retract-domain/src/plans.rs:278-327 | a job fits its plan: identity, scope, clocks, status rules and counters |
| `StateValidation.CheckHistory` | src-tauri/src/persistence/model.rs:287-320 | legacy entries are inert, distinct from jobs, and come with provenance |
| `StateValidation.EnterResources` | src-tauri/src/persistence/model.rs:256-263 | references are entered exactly when no identity stands for two resources |
| `StateValidation.CheckOwner` | src-tauri/src/persistence/model.rs:374-396 | a scope is owned exactly when it is that of a source of the profile |
| `StateRules.JobShapeMeans` | crates/retract-domain/src/plans.rs:277-345 | what its status allows a job to have, and how its counters bound each other |
| `StateRules.BatchesSuffice` | src-tauri/src/persistence/model.rs:398-411 | the batches of a step are just enough for its targets |
| `StateRules.BatchCountAdds` | src-tauri/src/persistence/model.rs:398-411 | the batches of two lists of steps add up |
| `StateRules.BatchCountOne` | src-tauri/src/persistence/model.rs:398-411 | and those of one step are its own |
| `StateRules.SourceMeans` | crates/retract-domain/src/records.rs:136-165 | a live connection has no archive and an import has a readable fingerprint, and both have their account |
| `StateRules.StateValidMeans` | src-tauri/src/persistence/model.rs:214-320 | the loops over the maps accept exactly the states that are in order, row by row and between rows |
| `FoundationStore.DurableSave` | src-tauri/src/persistence/foundation_store.rs:547-585 | write, read back, compare, rename and sync, with a fault possible at each, end as the save function says |
| `FoundationStore.SaveMeans` | src-tauri/src/persistence/foundation_store.rs:547-585 | a failure before the rename leaves the active file alone; from the rename on it holds exactly the new state, and only the sync makes that durable |
| `FoundationStore.LeftBehindMeans` | src-tauri/src/persistence/foundation_store.rs:553-567 | what a save leaves in the place of its candidate |
| `FoundationStore.SyncedNamesStay` | src-tauri/src/persistence/foundation_store.rs:538-585 | once the directory is synced no crash loses a name in it, and nothing else becomes impossible for an unsynced backup |
| `FoundationStore.KeepBackup` | src-tauri/src/persistence/foundation_store.rs:509-540 | a backup is created once or must match, and the directory is synced |
| `FoundationStore.InitializeState` | src-tauri/src/persistence/foundation_store.rs:453-507 | opening reads, migrates after backing up, or starts empty only without leftovers |
| `FoundationStore.Store.constructor` | src-tauri/src/persistence/foundation_store.rs:336-368 | an open store knows its committed state and needs no reload |
| `FoundationStore.Store.ReloadIfRequired` | src-tauri/src/persistence/foundation_store.rs:409-424 | after an uncertain save the state is read again before anything else |
| `FoundationStore.Store.TakeSnapshot` | src-tauri/src/persistence/foundation_store.rs:370-374 | a snapshot is the committed state, reloaded if need be |
| `FoundationStore.Store.Transact` | src-tauri/src/persistence/foundation_store.rs:376-407 | a transaction changes a copy, checks provenance and validity, saves, and only then commits |
| `FoundationStore.StepKeeps` | src-tauri/src/persistence/foundation_store.rs:336-585 | every operation, with any faults, and every crash keeps the store's invariant |
| `FoundationStore.RunKeeps` | src-tauri/src/persistence/foundation_store.rs:336-585 | so does every run from any first profile |
| `FoundationStore.SnapshotIsActive` | src-tauri/src/persistence/foundation_store.rs:370-374 | in every run a snapshot is exactly the state of the active file, that is of the last rename, and fails only if the file cannot be read |
| `FoundationStore.TransactionIsAtomic` | src-tauri/src/persistence/foundation_store.rs:376-407 | in every run a transaction publishes its change of the active state or nothing, the next snapshot sees which, and a crash leaves the old or the new state |
| `FoundationStore.TransactionSucceedsExactly` | src-tauri/src/persistence/foundation_store.rs:376-407 | in every run a transaction succeeds exactly when its state can be read where needed, its change exists, keeps the provenance and is accepted, and the faults let it replace the file and be synced; what the files and the memory hold after it, in every case |
| `FoundationStore.OpeningSucceedsExactly` | src-tauri/src/persistence/foundation_store.rs:453-540 | what an opening returns and leaves in the files, for every first content and all faults |
| `FoundationStore.BehavesAsVariable` | src-tauri/src/persistence/foundation_store.rs:336-585 | between two crashes the store behaves, whatever fails, as a plain variable: the files, the lazy reload and unsynced saves do not show |
| `FoundationStore.LosableStep` | src-tauri/src/persistence/foundation_store.rs:525-531 | from any state of any run: an operation puts the legacy bytes at risk exactly when it is an opening that finds an unsynced backup equal to them, passes every check and renames the migrated state over the active file; only a crash that happens to leave them ends it |
| `FoundationStore.LegacyKeptExactly` | src-tauri/src/persistence/foundation_store.rs:453-585 | in every run, a crash can leave the legacy bytes neither in the active file nor in the backup exactly if some opening took an unsynced backup, and no crash since then happened to leave them; what a crash leaves in their place is an accepted state of the provenance of their migration |
| `FoundationStore.VisibleBackup` | src-tauri/src/persistence/foundation_store.rs:465-484 | until a crash, the legacy bytes are in the backup as soon as they are not in the active file, synced or not |
| `FoundationStore.UnsyncedBackupCanBeLost` | src-tauri/src/persistence/foundation_store.rs:525-531 | the run that loses them: the next opening finds the unsynced backup equal to the active file and takes it for good |
| `FoundationStore.LeftoversFailClosed` | src-tauri/src/persistence/foundation_store.rs:485-490 | a profile with leftovers but no active file is never opened, and its backup is not touched, through any openings and any crashes that leave one of them |
| `Repository.StopForeign` | src-tauri/src/providers/lifecycle.rs:275-291 | the in-place edit stops exactly the unfinished jobs of other scopes |
| `Repository.BlockForeignJobs` | src-tauri/src/providers/lifecycle.rs:267-294 | blocking is one transaction, and none when there is nothing to block |
| `Repository.OpenRepository` | src-tauri/src/providers/lifecycle.rs:167-178 | a repository exists only for a scope of the profile and only once the jobs of other scopes are blocked |
| `Repository.ScopedRepository.constructor` | src-tauri/src/providers/lifecycle.rs:173-177 | a repository starts without known rows |
| `Repository.ScopedRepository.Load` | src-tauri/src/providers/lifecycle.rs:182-189 | the first rows loaded are the ones that commits are compared with |
| `Repository.ScopedRepository.Commit` | src-tauri/src/providers/lifecycle.rs:198-240 | a commit is refused without touching anything, or is one compare-and-swap transaction after which the new rows are known |
| `RepositoryRuns.BlockingKeepsValid` | src-tauri/src/providers/lifecycle.rs:275-293 | the neutral validation never refuses the blocking transaction |
| `RepositoryRuns.CommitEvolves` | src-tauri/src/providers/lifecycle.rs:198-240 | a commit keeps every plan, takes every job of its scope forward, and leaves other scopes' rows alone |
| `RepositoryRuns.CommitProjects` | src-tauri/src/providers/lifecycle.rs:228-240 | after a commit the rows of the scope are the committed ones |
| `RepositoryRuns.AcknowledgedIsCurrent` | src-tauri/src/providers/lifecycle.rs:238 | after an acknowledged commit the repository knows exactly the rows of its scope |
| `RepositoryRuns.TransactionIsPublication` | src-tauri/src/persistence/foundation_store.rs:376-407 | in every run of the store, whatever the faults, a transaction that keeps the provenance is lost, published without an acknowledgement, or acknowledged |
| `RepositoryRuns.RepositoryPublishes` | src-tauri/src/providers/lifecycle.rs:228-293 | so is every transaction that a repository or a blocking makes, because neither changes the provenance |
| `RepositoryRuns.NextEvolves` | src-tauri/src/providers/lifecycle.rs:198-294 | one action of any repository, or the transaction of a blocking at any time after its look at the state, keeps the state valid and takes plans and jobs only forward |
| `RepositoryRuns.RunEvolves` | src-tauri/src/providers/lifecycle.rs:162-294 | under every interleaving of commits and blocking, with writes lost or acknowledged late, the state stays valid, plans are append-only, cursors and counters never decrease and ended jobs stay ended |
| `RepositoryRuns.BlockingEndsRunning` | src-tauri/src/providers/lifecycle.rs:276-290 | blocking ends every running job of another scope and leaves nothing to block |
| `RepositoryRuns.BlockingOutcome` | src-tauri/src/providers/lifecycle.rs:275-290 | what blocking makes of every job: it ends Partial exactly if it was running and had deleted something, Failed if it had not, and waits otherwise |
| `RepositoryRuns.NeverRevived` | src-tauri/src/providers/lifecycle.rs:207-231 | a repository that knew a job unfinished after it ended never commits again, in any continuation, so the job is never revived |
| `RepositoryOutcomes.ContinuesMeans` | src-tauri/src/providers/lifecycle.rs:202-227 | a commit may go on exactly when no known plan or job is missing and no job steps back |
| `RepositoryOutcomes.CommitSucceedsExactly` | src-tauri/src/providers/lifecycle.rs:228-240 | in every run of the store a commit succeeds exactly if its scope has the rows it knew and the store can replace the state, and then the file holds the new rows of the scope and the old ones of others |
| `RepositoryOutcomes.BlockingSucceedsExactly` | src-tauri/src/providers/lifecycle.rs:262-293 | in every run of the store blocking succeeds exactly if the jobs of other scopes rest already or their blocking can replace the state, and then they rest in the file |
| `RepositoryOutcomes.HasSourceMeans` | src-tauri/src/providers/lifecycle.rs:171-174 | a repository is opened only for the scope of a source |
| `RepositoryOutcomes.NextCommits` | src-tauri/src/providers/lifecycle.rs:198-240 | the same as an action among others: when rows are committed, and when they are known |
| `RepositoryOutcomes.NextOtherwise` | src-tauri/src/providers/lifecycle.rs:162-293 | the other actions: starting without known rows, remembering the first ones loaded, and blocking |
| `Grants.GrantBook.constructor` | src-tauri/src/providers/lifecycle.rs:13-16 | a book starts without grants |
| `Grants.GrantBook.Issue` | src-tauri/src/providers/lifecycle.rs:23-32 | issuing replaces the grant of the identity |
| `Grants.GrantBook.Consume` | src-tauri/src/providers/lifecycle.rs:33-44 | a use is permitted exactly when the last event for the identity issued it for this fingerprint and context at most sixty seconds ago; every use takes the grant away |
| `Grants.GrantBook.Clear` | src-tauri/src/providers/lifecycle.rs:45-47 | clearing takes all grants away |
| `Grants.OutstandingMeans` | src-tauri/src/providers/lifecycle.rs:13-48 | a grant is outstanding exactly when its issue is the last event for its identity |

## Left out

- Observe: the guard's error is one of two kinds in the source, both `Err` here with their own constructors; the bytes after a refusal are not modelled, because the stream is dropped.
- Structure.Prober.Visit: which error a document gets that breaks several rules is not stated, and the parser's own errors are left out; the grammar lists are sets there, and `GrammarSets` models the list itself.
- Reader.ReadTranscript: which error is reported first is stated only between a record's own errors; the headers, channels and selection of a pass are left out.
- ThreeErrorsRejected: whether three wrong characters can take the version of an address to or from 0 and still pass is left open, beyond the cases within six consecutive characters.
- ZipDirectory.Inspect: which error a refused archive gets is stated only where a method of its own decides it; the decoder is an arbitrary function of what it is shown, the file does not change while it is read, and cancellation is left out everywhere.
- Normalize: the order in which several defects of a draft are reported is stated only for the confirmation, which comes last, and for targets, whose first problem decides.
- SelectedMessages: the constructors for other operations repeat its use of `collect_plan_items` and `finish` with capability checks in front, and are left out.
- BatchCount: the checked 64-bit sum of batches is unbounded here, because a valid plan has at most a thousand steps of a hundred thousand targets.
- Commit: rows must be of the repository's own scope, as the source assumes of its callers.
- Transact: the value that a change returns besides the new state is left out; the adapter's payload validation is part of the abstract acceptance of a state.
- Stop: diagnostics carry their code only.
- The lock on the profile directory, the registry of open stores, the mutexes and file modes: one store is open at a time, and its operations do not overlap.
- `migrate_legacy` is an arbitrary partial function from legacy contents to states.
- The text patterns of the detectors, SHA-256 of legacy addresses, and floating-point coordinates: only the arithmetic applied to a matched candidate is modelled.
- The compression library, CRC checks and the parser of JSON text: a document is the tree that the parser delivers, and an entry is an arbitrary source of bytes.
- The serialization of a plan to bytes is taken to be injective; object keys and their order are modelled, number and string syntax is not.
- Real clocks, scheduling, the user interface, the network and operating-system prompts.
