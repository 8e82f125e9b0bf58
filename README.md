# Bramble core in Dafny

Bramble classifies the atoms of a crystal or nanoparticle by the graph of their
nearest neighbours. This project models its core in Dafny and proves
properties of that model. The model covers:

- **Geometry reading** (`GeometryReading`). `read_file` picks a reader by
  extension (`.geo`, `.xyz`) or by a file name that starts with `POSCAR` or
  `CONTCAR`. `read_xyz` reads the atom count, one element, and the
  coordinates per line. `read_poscar` checks the header (the VASP4 test, the
  count test), skips a selective-dynamics line, chooses direct or Cartesian
  coordinates, and collects the matching atom lines of each element type.
  Its lines are the strings `std::getline` leaves: past the end of a file
  whose last line has no newline, that last line is read again.
- **The state** (`StateModel`). `create_supercell` lays out 27 blocks of
  atoms in a fixed translation order. `calculate_distances` chooses the
  matrix size, guards the memory it will need, and fills a symmetric
  distance matrix.
- **Common neighbour analysis** (`CnaTriplet`, `CommonNeighbour`).
  - The neighbours of an atom are selected by a strict `< cutoff` test.
  - Their adjacency matrix is symmetric with a false diagonal.
  - One triplet is computed per row: neighbours, edges among them, and the
    longest shortest path.
  - The fingerprint string counts the distinct triplets and lists them in
    descending string order.
- **The pattern library** (`PatternLibrary`, `LegacyPatterns`, `Patterns`,
  `Validators`). Two maps hold the entries, one indexed by fingerprint and
  one by key. Add and edit are modelled as the source writes them: add does
  not check the key, so a stored key keeps its old entry, and edit removes
  the old entry before the add that may refuse the new one. Both can leave
  the maps disagreeing. `AddCorrected` and `EditCorrected` refuse those two
  cases and keep the maps in agreement; remove and delete keep it as
  written. `get_pattern` falls back to the "" entry; `get_pattern_by_key`
  refuses a key it does not hold. The three validators are stated as grammars instead of regular
  expressions.
- **The permutation generator** (`Permutations`, `PermutationGenerator`).
  - Every permutation of `0..sz-1` appears exactly once, in lexicographic
    order.
  - Each permutation is packed two nibbles to a byte and unpacked again.
  - The generator also builds a flat vector of all permutations, the
    permutation matrices and the exchange-pattern text.
- **The similarity analysis** (`Similarity`).
  - The smaller distance matrix is zero-padded.
  - The sum of squared differences is taken under a permutation.
  - The first strictly smallest sum wins.
  - The adjacency metric counts mismatches as an exact integer.
  - The job list holds the pairs `i < j`, and the metric matrix is written
    symmetrically from it.
- **The progress bar** (`Progress`): the bar text, the tick counter and its
  `unsigned int` wrap-around, the percentage, the text every operation
  writes to the console, and the refusal of every use after the end.
- **The report readers** of `scripts/similarity_plot.py` (`SimilarityPlot`).
  They read the similarity matrix and the per-atom patterns out of the
  analysis files.

Classes model the source objects whose fields change in place: `Reader`,
`State`, `CNA`, `Library`, `Generator`, `SimilarityAnalysis` and
`ProgressBar`. Each method is proved against a specification function of its
old state and inputs. What the source promises is proved about those
functions as lemmas.

Floating point is modelled by `real`. The square root, the Euclidean norm,
the centre of mass, and the conversions from text to numbers are function
parameters that the model does not interpret.

## Model

| member | source | states |
|---|---|---|
| Text.NatToString | src/cna.cpp:112 | decimal text of a count: at least one digit, all digits, and a leading '0' only for zero |
| Text.DigitsValueOfNatToString | src/cna_triplet.cpp:70 | the decimal text of n reads back as n |
| Text.NatToStringInjective | src/cna_triplet.cpp:70 | distinct counts print as distinct text |
| Text.PadLeft | src/progress_bar.cpp:32 | `setw` right alignment: the text ends the result, fill before it, width max(width, length) |
| Text.PadRight | src/progress_bar.cpp:86-88 | std::left with setw: the message starts the result and spaces fill it up to the width (used by printNewMessage and updateLastPrintedMessage) |
| Text.Trim | src/geometry_reader.cpp:194 | the trimmed line neither starts nor ends with white space |
| Text.ReplaceChar | src/geometry_reader.cpp:130 | same length; exactly the tabs become spaces, every other character is kept |
| Text.SplitOn | src/geometry_reader.cpp:146 | `boost::split` on one character: at least one piece, no piece holds the separator |
| Text.JoinSplitOn | src/geometry_reader.cpp:146 | joining the pieces with the separator gives the line back |
| SimilarityPlot.Tokens | scripts/similarity_plot.py:36 | `str.split()` without argument: the words between white space |
| Text.WordsClean | scripts/similarity_plot.py:36 | `str.split()` gives non-empty words free of white space |
| Text.WordsOfJoin | scripts/similarity_plot.py:69 | splitting words joined by a blank gives the same words back |
| Text.Stoi | src/geometry_reader.cpp:134 | `std::stoi` succeeds only with a value in the 32-bit range |
| Text.StoiOfNatToString | src/geometry_reader.cpp:134 | `std::stoi` reads the decimal text of any count below 2^31 |
| Text.PyIntOfNatToString | scripts/similarity_plot.py:37-38 | Python `int()` reads decimal text, with or without a minus sign |
| Text.LessIrreflexive | src/cna.cpp:99 | the string order of `std::greater<std::string>` is irreflexive |
| Text.LessTransitive | src/cna.cpp:99 | the string order is transitive |
| Text.LessTotal | src/cna.cpp:99 | the string order is total |
| Patterns.MakePattern | src/pattern.cpp:30-40 | the getters return the key, name, fingerprint and colour the constructor was given |
| Patterns.Write | src/pattern.cpp:42-45 | `operator<<` appends exactly the fingerprint to the stream |
| Validators.FieldSound | src/pattern_library.cpp:255 | a parsed field is a non-empty run of allowed characters, then the terminator, then the rest |
| Validators.ParseGroupSound | src/pattern_library.cpp:255 | a parsed group is well formed and its text followed by the rest is the input |
| Validators.ParseGroupOf | src/pattern_library.cpp:255 | a well-formed group parses back from its text |
| Validators.ParseFingerprintSound | src/pattern_library.cpp:254-258 | an accepted fingerprint is the rendering of well-formed groups |
| Validators.ParseFingerprintComplete | src/pattern_library.cpp:254-258 | the rendering of any well-formed groups is accepted and parses back to them |
| Validators.ValidPatternIff | src/pattern_library.cpp:254-258 | a fingerprint is accepted with groups gs iff gs are well formed and render to it |
| Validators.SamplesAccepted | src/test/test_fingerprint.cpp:38-43 | "" and "12(4,2,1)" are valid fingerprints |
| Validators.SamplesRejectedAtStart | src/test/test_fingerprint.cpp:38-43 | "invalid" and "0(1,2,3)" are rejected |
| Validators.NoCountRejected | src/pattern_library.cpp:255 | a text that does not start with a count digit is rejected, alone or after a group |
| Validators.SamplesRejectedAfterGroup | src/test/test_fingerprint.cpp:38-43 | "12(1,2,0)(1,2,0)" and "12(1,2,0)0" are rejected |
| Validators.SampleLetterBetweenGroups | src/test/test_fingerprint.cpp:38-43 | a letter between two groups is rejected |
| Validators.SampleBlankBetweenGroups | src/test/test_fingerprint.cpp:38-43 | a blank between two groups is rejected |
| Validators.GroupPrefix | src/pattern_library.cpp:255 | a leading well-formed group does not change acceptance of the rest |
| Validators.IsValidPattern | src/pattern_library.cpp:254-258 | is_valid_pattern as written: the fingerprint parses as groups of the shipped grammar |
| Validators.IsValidPatternIntended | src/pattern_library.cpp:254-258 | the fingerprint parses as groups of the grammar whose count may contain a 0 after its first digit |
| Validators.ShippedWithinIntended | src/pattern_library.cpp:254-258 | every fingerprint the shipped grammar accepts, the intended one accepts too |
| Validators.IsValidKey | src/pattern_library.cpp:267-271 | is_valid_key: a non-empty key of letters, digits, `_` and `-` |
| Validators.IsValidColorCode | src/pattern_library.cpp:281-285 | is_valid_colorcode: exactly six hexadecimal digits |
| Validators.CountTenRejected | src/pattern_library.cpp:255 | the shipped grammar rejects the count 10 |
| Validators.CountTenAcceptedIntended | src/pattern_library.cpp:255 | the corrected grammar accepts the count 10 |
| Validators.SingleGroupAccepted | src/pattern_library.cpp:255 | one well-formed group parses as exactly that group |
| Validators.LibraryTestFingerprints | src/test/test_pattern_library.cpp:30-63 | the fingerprints of the library test are accepted and "12(4,2,1)a" is not |
| Validators.KeyAndColorExamples | src/pattern_library.cpp:267-285 | the keys and colours of the library test: "fcc_bulk", "unknown", "valid_key" and six hex digits accepted; a key with a blank, the empty key, and colours of 7 and 5 digits rejected |
| PatternLibrary.FreshLibrary | src/pattern_library.cpp:23-28 | the default library holds one consistent entry: key "unknown", name "Unknown", fingerprint "", colour "000000" |
| PatternLibrary.Add | src/pattern_library.cpp:118-143 | add_pattern as written: the three validations in order, refusal of a stored fingerprint, then both emplaces |
| PatternLibrary.AddSucceedsIff | src/pattern_library.cpp:118-143 | add succeeds iff fingerprint, key and colour are valid and the fingerprint is not stored; invalid fingerprint reported first, then key, then colour, then the stored fingerprint; on success the fingerprint map gains the entry and the key map gains it only when the key is new |
| PatternLibrary.AddKeepsConsistent | src/pattern_library.cpp:135-142 | after a successful add on agreeing maps, the maps agree exactly when the key was new; the fingerprint lookup gives the new entry, and every earlier entry stays |
| PatternLibrary.AddFresh | src/pattern_library.cpp:135-142 | a valid entry under a fresh fingerprint and a fresh key is added to both maps |
| PatternLibrary.AddCorrected | src/pattern_library.cpp:118-143 | the add that also refuses a stored key and validates with the intended grammar |
| PatternLibrary.AddCorrectedSucceedsIff | src/pattern_library.cpp:118-143 | the corrected add succeeds iff fingerprint, key and colour are valid and neither fingerprint nor key is stored |
| PatternLibrary.AddCorrectedKeepsConsistent | src/pattern_library.cpp:135-142 | a successful corrected add keeps both maps in agreement and stores the same entry under the fingerprint and the key |
| PatternLibrary.InsertKeepsConsistent | src/pattern_library.cpp:138-139 | inserting one valid entry under a fresh fingerprint and a fresh key keeps the maps in agreement |
| PatternLibrary.RemoveKeepsConsistent | src/pattern_library.cpp:185-188 | removing a stored key with its fingerprint keeps the maps in agreement and drops both |
| PatternLibrary.RemoveAbsentIsNoOp | src/pattern_library.cpp:185-188 | erasing an absent key and fingerprint changes nothing |
| PatternLibrary.DeleteByKeyKeepsConsistent | src/pattern_library.cpp:195-198 | delete fails exactly on an unknown key with "Unknown pattern key: "; otherwise it removes that entry and keeps agreement |
| PatternLibrary.GetPatternFallback | src/pattern_library.cpp:207-228 | a stored fingerprint gives its entry, a missing one the "" entry, a library without "" a logic error; identify returns the name |
| PatternLibrary.Edit | src/pattern_library.cpp:153-177 | edit_pattern as written: unknown key, then fingerprint and colour checks leave the library unchanged; otherwise remove, then add, whose failure keeps the removal |
| PatternLibrary.EditSucceedsIff | src/pattern_library.cpp:153-177 | edit succeeds iff the key is stored and valid, fingerprint and colour are valid and the fingerprint is free or the key's own; an unknown key, a bad fingerprint and a bad colour fail in that order with the library unchanged |
| PatternLibrary.EditKeepsConsistent | src/pattern_library.cpp:170-176 | on agreeing maps every edit leaves them agreeing; a successful one drops the old fingerprint, stores the new entry under key and fingerprint and keeps the other keys; a failed one leaves the library unchanged or with the edited entry removed |
| PatternLibrary.EditKeepsKeys | src/pattern_library.cpp:153-177 | a successful edit keeps the set of keys; a failure after the removal loses exactly the edited key, an earlier failure none |
| PatternLibrary.EditCorrected | src/pattern_library.cpp:153-177 | the edit that refuses another entry's fingerprint before removing anything |
| PatternLibrary.EditCorrectedSucceedsIff | src/pattern_library.cpp:153-177 | the corrected edit succeeds iff the key is known, fingerprint and colour are valid and the fingerprint is free or the key's own; unknown key reported first |
| PatternLibrary.EditCorrectedKeepsConsistent | src/pattern_library.cpp:170-176 | a successful corrected edit keeps agreement, drops the old fingerprint and stores the new entry under key and fingerprint |
| PatternLibrary.EditCorrectedKeepsKeys | src/pattern_library.cpp:153-177 | a corrected edit keeps the set of keys |
| PatternLibrary.Remove | src/pattern_library.cpp:185-188 | remove_pattern: both maps erase their key |
| PatternLibrary.DeleteByKey | src/pattern_library.cpp:195-198 | delete_pattern_by_key: an unknown key fails, a stored one removes its entry |
| PatternLibrary.GetPattern | src/pattern_library.cpp:218-228 | get_pattern: the stored entry, else the "" entry, else a logic error |
| PatternLibrary.GetPatternByKey | src/pattern_library.cpp:237-245 | get_pattern_by_key: the stored entry, else the runtime error "Unknown pattern key: " + key |
| PatternLibrary.Identify | src/pattern_library.cpp:207-209 | identify_pattern: the name of get_pattern |
| PatternLibrary.AddAsWrittenBreaksAgreement | src/pattern_library.cpp:135-142 | as written, adding a new fingerprint under a stored key succeeds and leaves the maps disagreeing |
| PatternLibrary.AddRefusesDuplicateKey | src/pattern_library.cpp:135-142 | the corrected add refuses a stored key and changes nothing |
| PatternLibrary.EditAsWrittenLosesEntry | src/pattern_library.cpp:170-176 | as written, editing to another entry's fingerprint throws after removing the edited entry |
| PatternLibrary.EditRefusesCollision | src/pattern_library.cpp:153-177 | the corrected edit refuses another entry's fingerprint before removing anything |
| PatternLibrary.LibraryTestScenario | src/test/test_pattern_library.cpp:30-63 | the library test, on the operations as written: add fcc_bulk, look it up both ways, edit it, and every refused call of the test is refused |
| PatternLibrary.ScenarioAdd | src/test/test_pattern_library.cpp:36-42 | adding a valid new fingerprint under a new key to the fresh library succeeds, keeps agreement, and both lookups agree |
| PatternLibrary.ScenarioAddedKeys | src/test/test_pattern_library.cpp:44-58 | after that add, "12(4,2,2)" is free, fcc_bulk is stored and non_existing_key is not |
| PatternLibrary.ScenarioEdit | src/test/test_pattern_library.cpp:44-54 | editing fcc_bulk to "12(4,2,2)" stores the new entry under both lookups |
| PatternLibrary.ScenarioRefusals | src/test/test_pattern_library.cpp:56-63 | the bad fingerprint, unknown key, bad key and bad colour calls all fail |
| PatternLibrary.BadPatternRefused | src/pattern_library.cpp:121-123 | add and edit refuse "12(4,2,1)a" |
| PatternLibrary.UnknownKeyRefused | src/pattern_library.cpp:157 | edit of an unknown key fails |
| PatternLibrary.BadKeyRefused | src/pattern_library.cpp:126-128 | add refuses "invalid key" |
| PatternLibrary.BadColorRefused | src/pattern_library.cpp:131-133 | add refuses colours of 7 and 5 digits |
| PatternLibrary.Library.constructor | src/pattern_library.cpp:23-28 | the new library holds exactly the unknown entry, consistently |
| PatternLibrary.Library.AddPattern | src/pattern_library.cpp:118-143 | the maps become those of Add, or stay unchanged with its error; agreement is kept when the key was new |
| PatternLibrary.Library.RemovePattern | src/pattern_library.cpp:185-188 | both maps lose exactly the given fingerprint and key |
| PatternLibrary.Library.DeletePatternByKey | src/pattern_library.cpp:195-198 | the maps become those of DeleteByKey or stay unchanged with its error; agreement is kept |
| PatternLibrary.Library.EditPattern | src/pattern_library.cpp:153-177 | the maps and the outcome are those of Edit, including the removal a failed add leaves behind; agreement is kept |
| LegacyPatterns.Add | src/patterns.cpp:117-127 | add_pattern: a new fingerprint goes into both maps without validation; a stored one only warns |
| LegacyPatterns.GetPattern | src/patterns.cpp:83-91 | get_pattern: the stored entry, else the "" entry |
| LegacyPatterns.GetPatternByKey | src/patterns.cpp:100-108 | get_pattern_by_key: the stored entry, else the runtime error "Unknown pattern key: " + key |
| LegacyPatterns.Identify | src/patterns.cpp:72-74 | identify_pattern: the name of get_pattern |
| LegacyPatterns.AddNewEntry | src/patterns.cpp:117-123 | a new fingerprint under a new key puts the same entry in both maps, without any validation |
| LegacyPatterns.AddDuplicateIgnored | src/patterns.cpp:124-126 | a stored fingerprint changes nothing and only warns |
| LegacyPatterns.AddKeepsFiled | src/patterns.cpp:117-127 | every entry stays filed under its own fingerprint and key, and the fingerprint is stored afterwards |
| LegacyPatterns.GetPatternFallback | src/patterns.cpp:72-91 | lookup gives the stored entry or the "" entry; identify gives its name |
| LegacyPatterns.GetPatternByKeyMeaning | src/patterns.cpp:100-108 | lookup by key succeeds iff the key is stored, with that key, else "Unknown pattern key: " |
| LegacyPatterns.Library.AddPattern | src/patterns.cpp:117-127 | the maps become those of Add; the warning is reported |
| Permutations.Remove | src/permutation_generator.cpp:158 | dropping one element removes exactly it from the multiset |
| Permutations.PermsOfLength | src/permutation_generator.cpp:141-159 | there are n! orderings of n elements |
| Permutations.PermsOfArePermutations | src/permutation_generator.cpp:141-159 | every enumerated ordering is a permutation of the input |
| Permutations.PermsOfFirst | src/permutation_generator.cpp:145 | the enumeration starts with the input itself |
| Permutations.PermsOfIncreasing | src/permutation_generator.cpp:158 | for a sorted input the orderings come in strictly increasing lexicographic order |
| Permutations.LexLessTransitive | src/permutation_generator.cpp:158 | the lexicographic order is transitive |
| Permutations.LexLessIrreflexive | src/permutation_generator.cpp:158 | the lexicographic order is irreflexive |
| Permutations.IncreasingDistinct | src/permutation_generator.cpp:158 | an increasing enumeration has no repeats |
| Permutations.PermsOfComplete | src/permutation_generator.cpp:158 | every permutation of a sorted input is enumerated |
| Permutations.PermsFacts | src/permutation_generator.cpp:141-159 | Perms(n) has n! entries, starts with the identity, is increasing and holds only permutations of 0..n-1 |
| Permutations.PermEntries | src/permutation_generator.cpp:141-159 | every permutation has length n and entries below n |
| Permutations.PermsExactlyOnce | src/permutation_generator.cpp:141-159 | every permutation of 0..n-1 appears, and none twice |
| Permutations.Perms | src/permutation_generator.cpp:141-159 | the permutations of 0..n-1 in the order `next_permutation` enumerates them |
| PermutationGenerator.AcceptsAsWritten | src/permutation_generator.cpp:30-32 | the constructor's guard as written: sz > 13 is refused |
| PermutationGenerator.Accepts | src/permutation_generator.cpp:30-32 | the guard the 6-byte record needs: sz > 12 is refused |
| PermutationGenerator.GuardAsWrittenAdmitsOverflow | src/permutation_generator.cpp:30-32 | the guard as written admits 13 elements, which do not fit the six-byte record |
| PermutationGenerator.GuardFits | src/permutation_generator.cpp:30-32 | the corrected guard accepts exactly the sizes that fit the record |
| PermutationGenerator.Packed | src/permutation_generator.cpp:148-156 | a packed record has six bytes |
| PermutationGenerator.UnpackPacked | src/permutation_generator.cpp:148-156 | unpacking a packed permutation of nibbles gives it back |
| PermutationGenerator.Unpacked | src/permutation_generator.cpp:97-103 | element i of a record: the high four bits of byte i/2 for even i, the low four for odd i |
| PermutationGenerator.UnpackedAt | src/permutation_generator.cpp:97-103 | element i comes back from the high or low nibble of byte i/2 |
| PermutationGenerator.NibbleRoundTrip | src/permutation_generator.cpp:150-155 | (a<<4 OR b) gives a back by shifting and b back by masking |
| PermutationGenerator.PackedByteOf | src/permutation_generator.cpp:149-155 | byte k holds element 2k in the high nibble and 2k+1 in the low one |
| PermutationGenerator.Pack | src/permutation_generator.cpp:148-156 | the packing loop produces the packed record |
| PermutationGenerator.UnpackRecord | src/permutation_generator.cpp:97-103 | the unpacking loop produces the unpacked permutation |
| PermutationGenerator.FlattenIndex | src/permutation_generator.cpp:73-85 | entry pid*n+j of the flat vector is element j of permutation pid |
| PermutationGenerator.PermVector | src/permutation_generator.cpp:68-86 | the cached permutation vector: all permutations of sz elements, concatenated |
| PermutationGenerator.PermVectorIndex | src/permutation_generator.cpp:68-86 | the permutation vector has n!*n entries, each permutation n long |
| PermutationGenerator.PermVectorSlice | src/permutation_generator.cpp:68-86 | the slice pid*n .. pid*n+n is permutation pid |
| PermutationGenerator.ExchangePattern | src/permutation_generator.cpp:117-136 | get_exchange_pattern_str: the exchange pattern text of one record |
| PermutationGenerator.ExchangePatternShape | src/permutation_generator.cpp:117-136 | the exchange pattern is 8*sz+1 characters with the newline after the header |
| PermutationGenerator.CellLength | src/permutation_generator.cpp:124 | each "%02i  " cell is four characters for values below 100 |
| PermutationGenerator.WriteHeader | src/permutation_generator.cpp:121-126 | the header line lists 0..sz-1, one cell each |
| PermutationGenerator.WriteRow | src/permutation_generator.cpp:128-134 | the second line lists the unpacked permutation, one cell each |
| PermutationGenerator.Generator.constructor | src/permutation_generator.cpp:28-36 | a generator of an accepted size holds sz! records and the permutation vector |
| PermutationGenerator.Generator.GeneratePermutations | src/permutation_generator.cpp:141-159 | the records become the packed Perms(sz), in order |
| PermutationGenerator.Generator.GetPermutationSingleVector | src/permutation_generator.cpp:93-108 | returns permutation pid, of length sz |
| PermutationGenerator.Generator.GetPermutationVector | src/permutation_generator.cpp:68-86 | fills the cache once with all permutations, and later calls return it unchanged |
| PermutationGenerator.Generator.GetPermutationMatrix | src/permutation_generator.cpp:45-61 | n×n 0/1 matrix whose ones are exactly (i, p[i]) and (p[i], i) for i < sz |
| PermutationGenerator.Generator.GetExchangePatternStr | src/permutation_generator.cpp:117-136 | the text is the exchange pattern of permutation pid |
| PermutationGenerator.Generator.NrPerm | src/permutation_generator.h:64-66 | the number of permutations is sz! |
| PermutationGenerator.Create | src/permutation_generator.cpp:28-36 | construction fails iff sz > 12 (the corrected guard; the source throws only for sz > 13), with the size message; otherwise a valid generator of that size |
| CnaTriplet.Neighbours | src/cna_triplet.cpp:14-20 | the rows whose entry in column atid is set |
| CnaTriplet.NeighboursSpec | src/cna_triplet.cpp:14-20 | the neighbours are the rows i with matrix(i, atid) set, in increasing order |
| CnaTriplet.Subgraph | src/cna_triplet.cpp:24-34 | the neighbour graph is square with one vertex per neighbour |
| CnaTriplet.RowEdges | src/cna_triplet.cpp:24-34 | neighbour i has at most j-i-1 edges to later neighbours |
| CnaTriplet.EdgeCountBound | src/cna_triplet.cpp:24-34 | k neighbours have at most k(k-1)/2 edges |
| CnaTriplet.Search | src/cna_triplet.cpp:43-61 | the layer found is the first within which v can be reached |
| CnaTriplet.WalkReaches | src/cna_triplet.cpp:43-61 | a walk of d steps puts its end within reach in d steps |
| CnaTriplet.ReachHasWalk | src/cna_triplet.cpp:43-61 | a vertex within reach in d steps ends a walk of at most d steps |
| CnaTriplet.Distance | src/cna_triplet.cpp:43-59 | Dijkstra's distance between two neighbours, in edges among the neighbours |
| CnaTriplet.DistanceIsShortest | src/cna_triplet.cpp:43-61 | the distance is the length of a shortest walk |
| CnaTriplet.LongestPath | src/cna_triplet.cpp:61 | the largest pair distance, `maxCoeff` of the distance matrix |
| CnaTriplet.LongestPathIsMax | src/cna_triplet.cpp:61 | the longest path bounds every pair distance and is attained by one pair |
| CnaTriplet.TripletOf | src/cna_triplet.cpp:8-62 | the CNA triplet of atom atid: neighbours, edges among them, longest path |
| CnaTriplet.TripletFacts | src/cna_triplet.cpp:8-62 | a triplet counts the neighbours, their edges, and their longest distance; 0 without neighbours |
| CnaTriplet.MakeTriplet | src/cna_triplet.cpp:8-62 | the constructor's loops compute the triplet, with the early exit for no neighbours; CNA_SIGNATURE in src/cna_signature.cpp:8-63 is the same code |
| CnaTriplet.CollectNeighbours | src/cna_triplet.cpp:14-20 | the loop collects exactly the neighbours and counts them |
| CnaTriplet.BuildNeighbourGraph | src/cna_triplet.cpp:24-34 | the loop builds the neighbour graph and counts its edges |
| CnaTriplet.LongestDistance | src/cna_triplet.cpp:43-61 | the distance table's maximum is the longest path |
| CnaTriplet.TripletStr | src/cna_triplet.cpp:69-71 | the text "(n,e,l)" of a triplet |
| CnaTriplet.TripletStrings | src/cna_triplet.cpp:69-81 | "(n,e,l)" and "{n,e,l}" differ only in their brackets, and distinct triplets print differently; src/cna_signature.cpp:65-72 prints the same two forms |
| CnaTriplet.TripletStrInjective | src/cna_triplet.cpp:69-71 | equal triplet text means equal triplets |
| CommonNeighbour.Tally | src/cna.cpp:99-107 | the counting loop over the row keys |
| CommonNeighbour.TallyFacts | src/cna.cpp:99-107 | counts in strictly descending key order, all at least 1, keys from the input, total the row count, each count the multiplicity |
| CommonNeighbour.TallyEntries | src/cna.cpp:99-107 | each entry's count is its key's multiplicity, and a key is listed iff it occurs |
| CommonNeighbour.BumpDescending | src/cna.cpp:101-106 | counting one more key keeps the keys in descending order |
| CommonNeighbour.BumpCount | src/cna.cpp:101-106 | counting a key adds one to that key's count and to no other |
| CommonNeighbour.BumpTotal | src/cna.cpp:101-106 | counting a key adds one to the total |
| CommonNeighbour.FingerprintTextSnoc | src/cna.cpp:110-115 | each entry adds its count then its triplet text |
| CommonNeighbour.RowKeys | src/cna.cpp:93-96 | one triplet text per row |
| CommonNeighbour.FingerprintWellFormed | src/cna.cpp:91-116 | every fingerprint is accepted by the corrected fingerprint grammar |
| CommonNeighbour.SampleFingerprint | src/test/test_cna.cpp:40-46 | six (3,1,1) and three (4,2,1) rows give "3(4,2,1)6(3,1,1)" |
| CommonNeighbour.SampleTally | src/cna.cpp:99-107 | that sample tallies to [((4,2,1),3), ((3,1,1),6)] |
| CommonNeighbour.Fingerprint | src/cna.cpp:91-116 | calculate_fingerprint_from_adjacency_matrix: "count(triplet)" per distinct triplet |
| CommonNeighbour.FingerprintFromAdjacency | src/cna.cpp:91-116 | the fingerprint of the matrix; "" for a 0×0 matrix |
| CommonNeighbour.RowTriplets | src/cna.cpp:93-96 | one triplet per row, each that row's triplet |
| CommonNeighbour.CountTriplets | src/cna.cpp:99-107 | the map loop produces the tally of the triplet texts |
| CommonNeighbour.WriteCounts | src/cna.cpp:110-115 | the stream loop writes the fingerprint text of the tally |
| CommonNeighbour.CutoffNeighbours | src/cna.cpp:135-143 | the atoms other than atid closer than the cutoff, in index order |
| CommonNeighbour.CutoffNeighboursSpec | src/cna.cpp:135-143 | the neighbours are exactly the i != atid below the bound with distance < cutoff, in increasing order |
| CommonNeighbour.Adjacency | src/cna.cpp:146-163 | the adjacency matrix of the neighbours under the cutoff |
| CommonNeighbour.AdjacencyShape | src/cna.cpp:146-163 | the adjacency matrix is symmetric with a false diagonal, and (a,b) is set iff distance(n_a,n_b) < cutoff |
| CommonNeighbour.FillAdjacency | src/cna.cpp:146-163 | the nested loops fill the adjacency matrix |
| CommonNeighbour.Resize | src/cna.cpp:57 | `resize` keeps the first entries and pads with empty matrices |
| CommonNeighbour.CNA.constructor | src/cna.cpp:26-27 | a new analysis holds the library and nothing else |
| CommonNeighbour.CNA.ConstructAdjacencyMatrix | src/cna.cpp:126-166 | bound by the state's matrix size; neighbours appended; the adjacency matrix of those neighbours returned |
| CommonNeighbour.CNA.CalculateFingerprint | src/cna.cpp:77-82 | stores the atom's neighbours and adjacency matrix and returns its fingerprint |
| CommonNeighbour.CNA.Analyze | src/cna.cpp:34-68 | a null state fails with a runtime error and changes nothing; otherwise one fingerprint, neighbour list and adjacency matrix per unit-cell atom |
| CommonNeighbour.CNA.FingerprintAtoms | src/cna.cpp:62-65 | every unit-cell atom gets its fingerprint |
| Similarity.Ordered | src/similarity_analysis.cpp:141-147 | the larger matrix comes first and the pair is the input pair |
| Similarity.PadReal | src/similarity_analysis.cpp:149-153 | padding gives a size×size matrix |
| Similarity.PadRealKeeps | src/similarity_analysis.cpp:149-153 | padding keeps the old entries, zeros the new ones, and is the identity at the same size |
| Similarity.PadBool | src/similarity_analysis.cpp:362-363 | padding an adjacency matrix gives a size×size matrix |
| Similarity.Norm | src/similarity_analysis.cpp:333-346 | the value analyze_single returns for one permutation |
| Similarity.NormFacts | src/similarity_analysis.cpp:333-346 | the norm is non-negative and zero iff every compared pair agrees |
| Similarity.AnalyzeSingle | src/similarity_analysis.cpp:333-346 | the loops compute 2·Σ(i<j) of the squared differences under the permutation |
| Similarity.Scores | src/similarity_analysis.cpp:159-170 | one score per permutation |
| Similarity.Argmin | src/similarity_analysis.cpp:159-170 | the argmin loop's lowest score and its index |
| Similarity.ArgminSpec | src/similarity_analysis.cpp:159-170 | the lowest score below the sentinel, first index attaining it; the sentinel and 0 when none is below |
| Similarity.ArgminZeroFirst | src/similarity_analysis.cpp:159-170 | a zero first score with no negative scores selects index 0 |
| Similarity.SelfSimilarity | src/test/test_similarity.cpp:40-46 | a matrix against itself scores 0 with permutation 0, the identity |
| Similarity.Search | src/similarity_analysis.cpp:138-177 | the squared metric and the permutation index the single-thread search selects |
| Similarity.DistanceMetric | src/similarity_analysis.cpp:138-177 | the square root of the lowest norm; the chosen permutation is written to the first minsize slots, the rest untouched |
| Similarity.LowestNorm | src/similarity_analysis.cpp:159-170 | the argmin loop computes the argmin over all permutations |
| Similarity.CopySelected | src/similarity_analysis.cpp:172-174 | permvec[0..minsize) receives permutation pid, the rest untouched |
| Similarity.Mismatches | src/similarity_analysis.cpp:365-370 | the count of disagreeing pairs in the rows before i |
| Similarity.MismatchBounds | src/similarity_analysis.cpp:348-373 | the mismatch count is zero iff all pairs agree, and at most n(n-1)/2 |
| Similarity.CountMismatches | src/similarity_analysis.cpp:365-370 | the loops count the disagreeing pairs i < j |
| Similarity.AdjacencyMetric | src/similarity_analysis.cpp:348-373 | twice the number of disagreeing pairs of the padded, ordered matrices |
| Similarity.LocalDistances | src/similarity_analysis.cpp:403-415 | the distance matrix among the neighbours of an atom |
| Similarity.LocalDistancesShape | src/similarity_analysis.cpp:383-418 | the local matrix is k×k, entry (a,b) the distance of n_a and n_b; symmetric with a zero diagonal when the distances are |
| Similarity.AtomDistances | src/similarity_analysis.cpp:383-418 | one row per cutoff neighbour |
| Similarity.FillDistances | src/similarity_analysis.cpp:403-415 | the loops fill the local distance matrix |
| Similarity.Pairs | src/similarity_analysis.cpp:85-90 | the job list of the first i rows |
| Similarity.PairMetric | src/similarity_analysis.cpp:125-133 | the metric written for atoms i and j |
| Similarity.PairsSpec | src/similarity_analysis.cpp:85-90 | the jobs are exactly the pairs i < j < N, in lexicographic order |
| Similarity.JobsInRange | src/similarity_analysis.cpp:85-90 | every job has i < j < N |
| Similarity.BuildJobs | src/similarity_analysis.cpp:85-90 | the loops build the job list |
| Similarity.AllWritten | src/similarity_analysis.cpp:119-134 | after all jobs, every cell holds its pair's metric, symmetric, with 0 on the diagonal |
| Similarity.WrittenStep | src/similarity_analysis.cpp:119-134 | one job writes its metric to (i,j) and (j,i) and nothing else |
| Similarity.SimilarityAnalysis.constructor | src/similarity_analysis.cpp:23-32 | a new analysis holds twelve generators of sizes 1..12 and no results |
| Similarity.SimilarityAnalysis.ConstructDistanceMatrix | src/similarity_analysis.cpp:383-418 | neighbours appended as in CNA; their local distance matrix returned |
| Similarity.SimilarityAnalysis.Analyze | src/similarity_analysis.cpp:55-136 | one local matrix per atom; the metric matrix is symmetric, PairMetric off the diagonal, 0 on it; of every two atoms the one with fewer neighbours needs 1 to 12 |
| Similarity.SimilarityAnalysis.BuildLocalMatrices | src/similarity_analysis.cpp:64-78 | each atom gets its cutoff neighbours and their local distance matrix |
| Similarity.SimilarityAnalysis.JobMetric | src/similarity_analysis.cpp:125-133 | a job's metric is the distance metric with the generator of the smaller size, which must lie in 1..12 |
| Similarity.SimilarityAnalysis.ComputeMetrics | src/similarity_analysis.cpp:82-134 | the metric matrix starts at zero and every job is written symmetrically |
| Similarity.UnsafeSlotOutOfRange | src/similarity_analysis.cpp:24-30 | with unsafe set, the loop writes a slot beyond the twelve allocated |
| Similarity.SafeSlotsInRange | src/similarity_analysis.cpp:24-30 | with twelve sizes, every slot written is allocated and every slot filled |
| StateModel.MatrixSize | src/state.cpp:76-79 | the unit-cell count when the supercell is too large or not periodic, else the supercell count |
| StateModel.MemSize | src/state.cpp:81 | dd·dd·sizeof(float) in 64-bit `size_t` arithmetic |
| StateModel.MemoryGuard | src/state.cpp:82-85 | for dd < 2^31 the guard fires iff dd > 65536 |
| StateModel.ShiftOfIndex | src/state.cpp:52-66 | every non-zero translation in {-1,0,1}^3 has its place among the 26 images |
| StateModel.ImageShifts | src/state.cpp:52-66 | the 26 images run through x, then y, then z, in increasing order, skipping (0,0,0) |
| StateModel.CodeOfShift | src/state.cpp:52-66 | image k has a translation in {-1,0,1}^3 other than (0,0,0) |
| StateModel.Supercell | src/state.cpp:45-66 | the unit cell followed by its 26 images |
| StateModel.SupercellLayout | src/state.cpp:45-66 | 27·N atoms: the first N the unit cell, entry N(k+1)+m atom m plus translation k |
| StateModel.PrefixLayout | src/state.cpp:52-66 | the blocks written so far hold their translated atoms |
| StateModel.DistanceMatrixShape | src/state.cpp:88-100 | the distance matrix is symmetric with the norm of zero on the diagonal |
| StateModel.FillStep | src/state.cpp:94-99 | one fill step writes (i,j) and (j,i) with the norm of the difference |
| StateModel.State.constructor | src/state.cpp:23-30 | the new state holds the cell, atoms, elements and periodicity, with no supercell and no distances |
| StateModel.State.CreateSupercell | src/state.cpp:42-67 | the supercell is 3 × cell and the supercell atoms are the 27-block layout |
| StateModel.State.CopyUnitCell | src/state.cpp:45-50 | 27·N slots with the unit cell in the first N |
| StateModel.State.WriteImages | src/state.cpp:52-66 | the nested loops write all 26 images in order |
| StateModel.State.WriteImagesAlongZ | src/state.cpp:55-64 | the z loop writes the images of one (x,y) column |
| StateModel.State.WriteImage | src/state.cpp:59-63 | one image appends N translated atoms |
| StateModel.State.CalculateDistances | src/state.cpp:72-101 | fails with the memory error and changes nothing iff dd·dd·4 bytes exceed 16 GiB; otherwise the distance matrix of the first dd atoms |
| StateModel.Load | src/state.cpp:23-37 | a loaded state holds the supercell layout and, when the memory guard passes, the distance matrix |
| GeometryReading.LastAfter | src/geometry_reader.cpp:32-33 | the position after the last occurrence of a character, 0 when absent |
| GeometryReading.FileName | src/geometry_reader.cpp:33 | the text after the last '/' |
| GeometryReading.FileNameOfName | src/geometry_reader.cpp:33 | the file name of dir/name is name |
| GeometryReading.Dispatch | src/geometry_reader.cpp:32-47 | the reader read_file chooses for a path |
| GeometryReading.DispatchIgnoresDirectory | src/geometry_reader.cpp:32-47 | the directory does not influence dispatch |
| GeometryReading.Extension | src/geometry_reader.cpp:32 | the text from the last '.' of the path |
| GeometryReading.ExtensionAfterLastDot | src/geometry_reader.cpp:32 | the extension is the text from the last dot |
| GeometryReading.ByExtension | src/geometry_reader.cpp:32-47 | dispatch of stem+ext looks only at the file name and the extension is ext |
| GeometryReading.DispatchByExtension | src/geometry_reader.cpp:35-40 | ".geo" goes to read_geo and ".xyz" to read_xyz |
| GeometryReading.DispatchWithoutExtension | src/geometry_reader.cpp:41-47 | without an extension, POSCAR reading iff the name starts with POSCAR or CONTCAR; otherwise an unknown type |
| GeometryReading.DispatchOfTestPoscar | src/test/test_poscar.cpp:30 | "POSCAR" is read as a POSCAR file |
| GeometryReading.DispatchOfTestXyz | src/test/test_xyz.cpp:30 | "co_np.xyz" is read as XYZ and "co_np.geo" as geo |
| GeometryReading.DispatchOfTestMissing | src/test/test_error.cpp:33 | "nonexistent_file" has no reader |
| GeometryReading.PastEnd | src/geometry_reader.cpp:187-250 | what getline leaves past the end: "" after a final newline or for an empty file, else the last line, trimmed when read_poscar trimmed it |
| GeometryReading.PoscarReads | src/geometry_reader.cpp:187-250 | the strings of the successive getline calls: the file's lines, then the past-end values |
| GeometryReading.LineAt | src/geometry_reader.cpp:187-250 | getline call k; past the end of the calls' strings the last repeats |
| GeometryReading.PoscarLineAt | src/geometry_reader.cpp:187-250 | call k reads line k; past the end, "" after a final newline, and a last atom-section line without one on every call |
| GeometryReading.ResizeNames | src/geometry_reader.cpp:143 | `resize` keeps the first names and pads with empty strings |
| GeometryReading.ResizePositions | src/geometry_reader.cpp:144 | `resize` keeps the first positions; new ones are zero in the model |
| GeometryReading.Centred | src/geometry_reader.cpp:153-159 | every position is shifted by the centre |
| GeometryReading.XyzLines | src/geometry_reader.cpp:126-132 | each kept line is the file line cleaned of tabs and repeated blanks |
| GeometryReading.ReadXyzSpec | src/geometry_reader.cpp:118-159 | read_xyz on the lines of the file |
| GeometryReading.XyzShape | src/geometry_reader.cpp:118-159 | a successful read holds exactly the announced count; element i is the first piece of line i+2; the cell is unchanged |
| GeometryReading.XyzCoordinates | src/geometry_reader.cpp:146-150 | an element and three numbers give exactly those coordinates |
| GeometryReading.Fields | src/geometry_reader.cpp:216-218 | the field split of a line has at least one entry |
| GeometryReading.NumberGroup | src/geometry_reader.cpp:245-246 | a number group of the coordinate pattern is non-empty and holds only number characters |
| GeometryReading.AtomOfLine | src/geometry_reader.cpp:245-289 | one atom line: skipped when it does not match the mode's pattern, else its position |
| GeometryReading.TypeAtoms | src/geometry_reader.cpp:248-291 | the atoms read for one element type, one getline per atom, past the end repeating what getline leaves |
| GeometryReading.EmptyLineSkipped | src/geometry_reader.cpp:244-287 | an empty line matches neither atom pattern and adds no atom |
| GeometryReading.LastAtomLineRepeats | src/geometry_reader.cpp:248-291 | a matching last atom line without a newline is read for each remaining atom (twice for a count of 2), with a newline once |
| GeometryReading.TypeAtomsFacts | src/geometry_reader.cpp:248-291 | one type reads at most its count of atoms, all labelled with that type, after those already read |
| GeometryReading.AllAtomsFacts | src/geometry_reader.cpp:248-291 | all types together read at most the sum of the counts, grouped by type in order |
| GeometryReading.Counts | src/geometry_reader.cpp:221-227 | one count per field |
| GeometryReading.CellRows | src/geometry_reader.cpp:199-207 | three rows of three numbers |
| GeometryReading.PoscarHeader | src/geometry_reader.cpp:189-230 | an accepted header has a letter in the names line and as many counts as names |
| GeometryReading.PoscarErrors | src/geometry_reader.cpp:210-230 | no letter in the names line is the VASP4 error; otherwise a count-length mismatch is the size error |
| GeometryReading.ModeAgrees | src/geometry_reader.cpp:233-242 | a selective-dynamics line moves the mode line from 7 to 8; direct iff it starts with D or d |
| GeometryReading.ReadPoscarSpec | src/geometry_reader.cpp:179-292 | read_poscar on the strings its successive getline calls leave |
| GeometryReading.ParsePoscar | src/geometry_reader.cpp:179-292 | a parse holds a letter in the names line, one count per name, at most the counted atoms, grouped by type |
| GeometryReading.StoreAtoms | src/geometry_reader.cpp:199-291 | the scaled cell replaces the old one; every atom read is appended with its type's name, old entries kept |
| GeometryReading.ParseStages | src/geometry_reader.cpp:179-292 | after a good header the parse is the outcome of reading the atoms |
| GeometryReading.HeaderStage | src/geometry_reader.cpp:189-230 | a failing header fails the whole parse with the same error |
| GeometryReading.StoreStage | src/geometry_reader.cpp:179-292 | reading is parsing, then storing |
| GeometryReading.LabelsSnoc | src/geometry_reader.cpp:281-287 | appending an atom appends its type's name and its position |
| GeometryReading.KeepXyzLines | src/geometry_reader.cpp:126-132 | the line loop keeps the cleaned lines |
| GeometryReading.ReadCoords | src/geometry_reader.cpp:148-150 | the coordinate loop gives the coordinates |
| GeometryReading.ReadRow | src/geometry_reader.cpp:201-205 | the row loop gives the three entries of a cell row |
| GeometryReading.ReadCellRows | src/geometry_reader.cpp:199-207 | the matrix loop gives the three cell rows |
| GeometryReading.ReadCounts | src/geometry_reader.cpp:221-227 | the count loop gives the counts |
| GeometryReading.ReadHeader | src/geometry_reader.cpp:189-230 | the header code gives the header or its error |
| GeometryReading.Reader.constructor | src/geometry_reader.h:48 | a new reader is empty and not periodic |
| GeometryReading.Reader.ReadXyz | src/geometry_reader.cpp:118-159 | the reader's geometry becomes the XYZ reading, or the error is reported; periodicity is untouched |
| GeometryReading.Reader.ReadXyzAtoms | src/geometry_reader.cpp:145-151 | the atom loop fills the resized element and position lists |
| GeometryReading.Reader.CentrePositions | src/geometry_reader.cpp:153-159 | every position is shifted by the centre; nothing else changes |
| GeometryReading.Reader.CollectType | src/geometry_reader.cpp:248-291 | the lines of one type append their atoms and labels |
| GeometryReading.Reader.CollectAtoms | src/geometry_reader.cpp:248-291 | all types append their atoms and labels in type order |
| GeometryReading.Reader.ReadPoscar | src/geometry_reader.cpp:179-292 | the reader's geometry becomes ReadPoscarSpec of the file's getline strings, or its error is reported |
| GeometryReading.Reader.ReadPoscarBody | src/geometry_reader.cpp:242-291 | after the header, the cell is stored and the atoms appended |
| GeometryReading.Reader.ReadFile | src/geometry_reader.cpp:25-50 | missing file or unknown type fails, unchanged; XYZ reads the file's lines, POSCAR the strings its getline calls leave; periodic only after a POSCAR read |
| Progress.Bins | src/progress_bar.cpp:30 | the bin the percentage falls in |
| Progress.Symbols | src/progress_bar.cpp:30-37 | at most 53 bar symbols: progress-1 when in range, 0 at 0 |
| Progress.SymbolsMonotone | src/progress_bar.cpp:30-37 | more progress never shows fewer symbols; 0% shows none and 100% all 53 |
| Progress.GenerateProgressBar | src/progress_bar.cpp:28-43 | generateProgressBar: the percentage and the bar text |
| Progress.BarLayout | src/progress_bar.cpp:28-43 | 61 characters: " ", percentage in width 3, "% [", the symbols then blanks, "]"; the percentage reads back |
| Progress.BarPart | src/progress_bar.cpp:33-41 | the bar part starts "% [" and ends "]" |
| Progress.BarPartSymbols | src/progress_bar.cpp:39 | the bar starts with exactly the symbols |
| Progress.SplitBar | src/progress_bar.cpp:32 | the padded percentage is blanks then the digits |
| Progress.NextTicks | src/progress_bar.cpp:70 | ticks become min(ticks+1, total) and never exceed total; the unsigned add wraps to 0 at 2^32 |
| Progress.TicksAfter | src/progress_bar.cpp:70 | the tick count after k increments |
| Progress.TicksSaturate | src/progress_bar.cpp:70 | after k ticks the counter is min(k, total) |
| Progress.TicksWrap | src/progress_bar.cpp:70 | at the largest unsigned value, one more tick wraps to 0 |
| Progress.Percent | src/progress_bar.cpp:71-72 | ⌊ticks·100/total⌋: at most 100, and 100 at the end |
| Progress.PercentMonotone | src/progress_bar.cpp:71-72 | more ticks never show a smaller percentage |
| Progress.ShownPercentage | src/progress_bar.cpp:71-72 | the truncated ticks·100/total, at most 100; 0 for a total of 0 |
| Progress.BarOutput | src/progress_bar.cpp:74 | the bar line and a carriage return |
| Progress.OpeningOutput | src/progress_bar.cpp:52-54 | the initial message, a newline, then the bar at 0% |
| Progress.NewMessageOutput | src/progress_bar.cpp:86-94 | "\r", the message left-aligned in 61 columns, a newline, then the bar |
| Progress.UpdateOutput | src/progress_bar.cpp:104-107 | "\r", ESC [F, the message left-aligned in the last message's width, a newline |
| Progress.MessageCoversBar | src/progress_bar.cpp:86-88 | a new message is padded to at least the length of every bar line, so it covers the bar it overwrites |
| Progress.NewMessageFirst | src/progress_bar.cpp:86-88 | the message text follows the carriage return |
| Progress.UpdateCoversLast | src/progress_bar.cpp:104-107 | an update is padded to the last message's length and starts with its own text |
| Progress.ProgressBar.constructor | src/progress_bar.cpp:46-55 | 0 ticks, not ended, last message length that of the initial message; OpeningOutput written |
| Progress.ProgressBar.Percentage | src/progress_bar.cpp:71-72 | the percentage is at most 100, and Percent(ticks, total) for a positive total |
| Progress.ProgressBar.Tick | src/progress_bar.cpp:62-75 | after the end: a runtime error and nothing changes; otherwise ticks advance saturating at total and the new bar is written |
| Progress.ProgressBar.PrintNewMessage | src/progress_bar.cpp:77-95 | after the end: a runtime error and nothing changes; otherwise NewMessageOutput is written and the last message length becomes the new one's |
| Progress.ProgressBar.UpdateLastPrintedMessage | src/progress_bar.cpp:97-110 | after the end: a runtime error and nothing changes; otherwise UpdateOutput in the old width is written and the last message length becomes the new one's |
| Progress.ProgressBar.EndProgressBar | src/progress_bar.cpp:112-119 | ends the bar; two newlines written on the first call only, later calls change nothing |
| SimilarityPlot.AtomCount | scripts/similarity_plot.py:25 | n is `int` of the last token of line 9; an IndexError iff that line has no token |
| SimilarityPlot.NumpyIndex | scripts/similarity_plot.py:44 | a numpy index is valid iff -n <= i < n, and negative ones wrap |
| SimilarityPlot.ParseEntry | scripts/similarity_plot.py:36-43 | a parsed entry addresses a cell of the n×n matrix |
| SimilarityPlot.ParseEntryMeaning | scripts/similarity_plot.py:36-43 | cell (int(tok0)-1, int(tok1)-1); value 0 for "N/A", else float of the third-last token |
| SimilarityPlot.ReadEntries | scripts/similarity_plot.py:34-44 | reads exactly the requested lines, entry k from its own line |
| SimilarityPlot.DataEntries | scripts/similarity_plot.py:34-36 | exactly n·n data lines are read |
| SimilarityPlot.Fill | scripts/similarity_plot.py:31-44 | an n×n matrix whose cells hold the last write, or 0 |
| SimilarityPlot.CellUntouched | scripts/similarity_plot.py:31 | a cell no entry addresses is 0 |
| SimilarityPlot.CellLastWrite | scripts/similarity_plot.py:44 | a cell holds the value of the last entry addressing it |
| SimilarityPlot.ReadSimilaritySpec | scripts/similarity_plot.py:17-46 | read_similarity_analysis_file on the lines of the file |
| SimilarityPlot.SimilarityData | scripts/similarity_plot.py:31-44 | the matrix is the fill of the data entries, or their error |
| SimilarityPlot.EntryOfLine | scripts/similarity_plot.py:34-37 | data entry k comes from line 10+k |
| SimilarityPlot.UnwrittenCellIsZero | scripts/similarity_plot.py:31 | an unaddressed cell of the result is 0 |
| SimilarityPlot.LastWriteWins | scripts/similarity_plot.py:44 | a cell of the result holds its last write |
| SimilarityPlot.ReadSimilarityAnalysisFile | scripts/similarity_plot.py:17-46 | a fresh n×n array holding the specified matrix, or the specified error |
| SimilarityPlot.ReadData | scripts/similarity_plot.py:34-44 | the nested loops write the entries into the zeroed array |
| SimilarityPlot.PySlice | scripts/similarity_plot.py:69 | Python slicing: the slice when in range, empty when the bounds cross |
| SimilarityPlot.PatternLine | scripts/similarity_plot.py:67-69 | a pattern line parses iff it has a token |
| SimilarityPlot.NameSplitsBack | scripts/similarity_plot.py:69 | the pattern is the last token and the name the tokens 6..-1 joined by blanks |
| SimilarityPlot.PatternRows | scripts/similarity_plot.py:66-72 | one pattern and one name per row, each from its own line |
| SimilarityPlot.PatternsPerAtom | scripts/similarity_plot.py:52-72 | the corrected reader returns n patterns and n names, each from data line i |
| SimilarityPlot.AsWrittenLosesPatterns | scripts/similarity_plot.py:74 | as written only the last pattern is returned, and with none read the call raises |
| SimilarityPlot.NoAtomsRaises | scripts/similarity_plot.py:66-74 | n = 0 raises UnboundLocalError as written, and gives two empty lists corrected |
| SimilarityPlot.ReadPatternRows | scripts/similarity_plot.py:66-72 | the loop gives the pattern rows |
| SimilarityPlot.ReadPatternSpec | scripts/similarity_plot.py:48-74 | read_pattern_analysis as written: the last pattern and the names |
| SimilarityPlot.ReadPatternsSpec | scripts/similarity_plot.py:48-74 | read_pattern_analysis as intended: all patterns and the names |
| SimilarityPlot.ReadPatternAnalysis | scripts/similarity_plot.py:48-74 | the reader as written: the last pattern read and the names, or UnboundLocalError when none was read |
| SimilarityPlot.ReadPatternAnalysisCorrected | scripts/similarity_plot.py:48-74 | the reader returning the list of patterns |

## Left out

- OpenMP and CUDA: the parallel loops, `calculate_distance_metric_openmp`, the CUDA path, `selftest`, `bramblecuda.cpp` and the CUDA headers. Only the sequential meaning of `analyze` and `calculate_distances` is modelled.
- `calculate_cutoff` in CNA and in the similarity analysis is floating-point arithmetic. The cutoff is a parameter, one value per atom.
- `sqrt`, the Euclidean norm, `find_center_of_mass` and the conversions `stod`, `lexical_cast` and `float()` are function parameters. The model does not interpret them.
- `find_max_coordinates` and the unit-cell scaling at the end of `read_xyz` (src/geometry_reader.cpp:161-169) are not modelled. That scaling multiplies a cell that was never set.
- `read_geo` (src/geometry_reader.cpp:57-111) is not part of this model. Its atom-count loop reads past the end of the lines. Dispatch to it is modelled and leaves the reader unchanged.
- The JSON constructors and `store_pattern_library` of both libraries are file I/O through boost `property_tree`. `CNA::write_analysis` is report output.
- File existence and opening are modelled by a `present` flag of `read_file`. The "could not open" errors inside `read_xyz` and `read_poscar` cannot happen after that check.
- Console output other than the progress bar's, and timing. The progress bar's writes are appended to its `console` field; the flushes and the destructor's call of `endProgressBar` are not modelled.
- `Progress.ShownPercentage`: with a total of 0, `operator++` and `printNewMessage` convert the NaN of 0*100.0/0 to `unsigned int`, which is undefined behaviour. The model shows 0% then, so `Tick` and `PrintNewMessage` write the 0% bar in that case.
- The CLI programs `bramble.cpp` and `brambletool.cpp`, and `plot_matrix` and `main` of `scripts/similarity_plot.py`, are argument parsing and plotting.
- `next_permutation` is specified by its outcome, the lexicographic enumeration `Permutations.Perms`, and not by its in-place swaps.
- The shadowed inner `j` loop of `analyze` (src/similarity_analysis.cpp:128-133) recomputes the same cells. Only the resulting matrix is modelled.
- `CnaTriplet.TripletFacts`: for a disconnected neighbour graph the source's distance is boost's infinity for the `float` weight type (src/cna_triplet.h:37), `numeric_limits<float>::max()`, a finite value whose conversion to `int` overflows. The model counts an unreachable pair as 0.
- `CommonNeighbour.CNA.Analyze`: the null-state message is modelled without the `__FILE__` and `__LINE__` suffix.
- `PermutationGenerator.Generator.GetPermutationMatrix` requires sz <= n. A smaller n writes outside the Eigen matrix in the source.
- `Similarity.SimilarityAnalysis.Analyze`, `JobMetric` and `ComputeMetrics` require, for every two atoms, that the smaller of their neighbour counts lies in 1..12. The source indexes the generators with that count minus one, so 0 reads slot -1 and 13 or more read past the twelve slots.
- `PermutationGenerator.Create`: uses the corrected guard sz > 12. The source's guard sz > 13 lets sz = 13 through, whose packing writes past the 6-byte record; that case is the finding below.
- `GeometryReading.LineAt`: a file is given as its lines and whether the last one ends with a newline (`TextFile`); how `getline` splits the bytes into lines is not modelled. Reads past the end follow `PastEnd`: with a last line that has no newline, the stream is at end-of-file, every later `getline` fails before erasing the string, and `read_poscar` reads that line again.
- `GeometryReading.ResizePositions`: new positions are the zero vector, where Eigen leaves them uninitialised. An XYZ line with fewer than three coordinates therefore leaves 0 in the model where the source leaves an unspecified value.
- `Text.PyInt`: accepts an optional sign and ASCII digits. Python's `int()` also accepts underscores between digits ("1_0") and non-ASCII digits; the model rejects those.
- `LegacyPatterns.GetPatternFallback` requires the "" entry. Without it the source recursion never ends.
- Floating-point rounding: coordinates, distances and metrics are `real`.

## Findings

| source | as written | input that shows it | evidently intended | confidence | as-written member | corrected member |
|---|---|---|---|---|---|---|
| src/permutation_generator.cpp:30-32 | the constructor throws only for `sz > 13` | sz = 13 writes byte 6 of the 6-byte record | refuse every size above 12 | not executed | PermutationGenerator.GuardAsWrittenAdmitsOverflow | PermutationGenerator.GuardFits |
| src/pattern_library.cpp:255 | the count of a group is `[1-9]+` | "10(0,0,0)", a fingerprint CNA produces for ten equal rows, is rejected | a count `[1-9][0-9]*` | not executed | Validators.CountTenRejected | Validators.CountTenAcceptedIntended |
| src/pattern_library.cpp:135-142 | `add_pattern` does not check the key, and `emplace` keeps an existing key's entry | adding a new fingerprint under the key "unknown" | refuse a stored key so the two maps agree | not executed | PatternLibrary.AddAsWrittenBreaksAgreement | PatternLibrary.AddRefusesDuplicateKey |
| src/pattern_library.cpp:153-177 | `edit_pattern` removes the old entry before `add_pattern` can refuse the new fingerprint | editing one key to a fingerprint another key holds | refuse before removing anything | not executed | PatternLibrary.EditAsWrittenLosesEntry | PatternLibrary.EditRefusesCollision |
| scripts/similarity_plot.py:74 | `read_pattern_analysis` returns `pattern`, the last token read | a report with two atoms returns one pattern; with zero atoms it raises | return the list `patterns` | not executed | SimilarityPlot.AsWrittenLosesPatterns | SimilarityPlot.PatternsPerAtom |
| src/similarity_analysis.cpp:24-30 | with `unsafe` the generator loop runs to 13 over 12 slots | unsafe = true writes slot 12 | twelve generators whatever `unsafe` says | not executed | Similarity.UnsafeSlotOutOfRange | Similarity.SafeSlotsInRange |
