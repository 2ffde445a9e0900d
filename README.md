# PDF code index and merge planner — a Dafny model

The service takes a folder of uploaded PDFs and indexes them by alphanumeric
"codes", such as `ABC123456` or `SAC2022`. Codes are read from file names, from
page text, or from both. The service then builds merged PDFs: one from a list of
codes (`merge_by_code`), or one from a list of base names whose numbered parts
`base_0.pdf`, `base_1.pdf`, … are concatenated (`merge_by_bases`).

This project models that core and proves properties of it:

- **Code extraction and normalisation** (`Codes`, `Pattern`).
  - The fixed file-name pattern `[A-Za-z]{2,}[-_ ]?\d{1,}[A-Za-z0-9]*` is a left-to-right
    scanner. With the surrounding `\b`, the same scanner is the default content pattern.
  - Each match is upper-cased and stripped of whitespace, `_` and `-`.
  - Duplicates are removed, keeping first occurrences in order.
  - A caller-supplied content pattern is an abstract `Matcher`, a function from text to
    its matched substrings.
- **The three index builders** (`FilenameExtractor`, `ContentExtractor`, `HybridExtractor`).
  - `by_code` is an association list `seq<(string, seq<Hit>)>` that keeps Python's
    key insertion order.
  - Each builder is an imperative method with nested loops, proved equal to a fold
    function over the input files.
  - The properties are proved about those folds.
- **Upload handling** (`Uploads`).
  - `_safe_pdf_name`, `_find_parts`, and the file order and empty-set check of `build_index`.
  - The choice of builder by scan mode.
- **Merge planning** (`Merge`).
  - Each merge endpoint is a method with the same loop as the source, an explicit
    list of written pages and the `total_pages` counter.
  - Each method is proved equal to a plan: a list of copy operations per requested
    item, run against an abstract page-count oracle and then finished with the
    "zero pages" rule.

Shared pieces:

- `Text`: ASCII character classes, case mapping and Python string order.
- `Sequences`: `dict.fromkeys` de-duplication and subsequences.
- `Sorting`: Python's stable `sorted`, as insertion sort with sortedness, permutation
  and stability lemmas.
- `CodeIndex`: the `by_code` dictionary, `get`, `__setitem__` and `setdefault`.
- `Wrappers`: `Option` and `Result`.

One letter before the digits is no code. The file-name pattern needs at least two
letters before the digits, so `A1-001.pdf` and `B2_2.pdf` yield no code at all, not
`A1001` or `B22` (`FilenameExtractor.OneLetterPrefixNoCode`,
`FilenameExtractor.OneLetterUnderscoreNoCode`).

## Model

| member | source | states |
|---|---|---|
| Text.UpperAscii | pdf_extractor_filename.py:28 | same length; every lower-case ASCII letter becomes its upper-case letter, every other character is kept |
| Text.LowerAscii | main.py:95 | same length; every upper-case ASCII letter becomes its lower-case letter, every other character is kept |
| Text.LowerAsciiAppend | main.py:95 | lower-casing distributes over concatenation |
| Text.StrLeTotal | main.py:189 | Python's string order compares any two strings |
| Text.StrLeTransitive | main.py:189 | Python's string order is transitive |
| Text.StrLeAntisymmetric | main.py:279 | two strings ordered both ways are equal, so tuple keys fall through to the next component only on equality |
| Sequences.IndexOf | pdf_extractor_filename.py:31 | the position of the first occurrence: it holds the element and nothing before it does |
| Sequences.Unique | pdf_extractor_filename.py:31 | `list(dict.fromkeys(xs))` has no duplicates, exactly the elements of `xs`, and is no longer than `xs` |
| Sequences.UniqueSnoc | pdf_extractor_filename.py:31 | one more input element is appended to the output exactly when it was not seen before |
| Sequences.UniqueKeepsFirstOccurrenceOrder | pdf_extractor_filename.py:31 | the output lists elements in the order of their first occurrence in the input |
| Sequences.UniqueOfDistinct | pdf_extractor_filename.py:31 | a duplicate-free input comes back unchanged |
| Sorting.InsertBy | main.py:114 | inserting keeps every element and adds the new one (multiset) |
| Sorting.SortBy | main.py:114 | sorting returns a permutation of its input (same length, same multiset) |
| Sorting.InsertBySorted | main.py:114 | inserting into an ordered sequence keeps it ordered under any total preorder |
| Sorting.SortBySorted | main.py:114 | the sorted sequence is ordered by the key |
| Sorting.InsertByStable | main.py:279 | inserting keeps the elements with any one key in the order of `[x] + s` |
| Sorting.SortByStable | main.py:279 | the sort is stable: elements with equal keys keep their input order |
| Sorting.EquivalentToHead | main.py:279 | the first element carrying a key is the earliest element of the input with that key |
| Sorting.StableHead | main.py:279-281 | the least head of an order that keeps equal keys in input order is the earliest least element of the input |
| Sorting.SortByMembers | main.py:114-115 | sorting keeps exactly the elements it was given |
| Codes.RemoveDropped | pdf_extractor_filename.py:28 | no whitespace, `_` or `-` remains, every remaining character comes from the input, and the result is no longer |
| Codes.Normalize | pdf_extractor_filename.py:28 | a normalised code has no lower-case letter, whitespace, `_` or `-`, and is no longer than the match |
| Codes.RemoveDroppedKeepsClean | pdf_extractor_filename.py:28 | a string without whitespace, `_` or `-` is unchanged by the removal |
| Codes.UpperAsciiKeepsUpper | pdf_extractor_filename.py:28 | a string without lower-case letters is unchanged by upper-casing |
| Codes.NormalizeFixedPoints | pdf_extractor_filename.py:28 | normalisation leaves a string unchanged exactly when it is already canonical |
| Codes.NormalizeIdempotent | pdf_extractor_filename.py:28 | normalising a normalised code changes nothing |
| Codes.RemoveDroppedAppend | pdf_extractor_filename.py:28 | removal distributes over concatenation |
| Codes.NormalizeIgnoresCase | pdf_extractor_filename.py:25-28 | two matches that differ only in letter case normalise to the same code |
| Codes.NormalizeAll | pdf_extractor_filename.py:25-29 | the list of normalised matches is pointwise the normalisation of each match |
| Codes.CollectCodes | pdf_extractor_filename.py:24-31 | the loop's result is duplicate-free and canonical, contains the code of every match, and contains nothing else |
| Codes.CodesKeepFirstOccurrenceOrder | pdf_extractor_filename.py:31 | codes come out in the order of their first occurrence among the normalised matches |
| Codes.NormalizedMatchIn | pdf_extractor_filename.py:25-31 | every match contributes its normalised code to the result |
| Codes.NormalizeJoined | pdf_extractor_filename.py:28 | upper-case letters, one separator, then digits normalise to the letters followed by the digits |
| Pattern.LetterRun | pdf_extractor_filename.py:22 | the run of letters at `i` is maximal: all letters, followed by the end or a non-letter |
| Pattern.AlnumRun | pdf_extractor_filename.py:22 | the alphanumeric run at `i` is maximal |
| Pattern.CloseAt | pdf_extractor_content.py:68 | a match's digit-led run ends past its first digit and is all alphanumeric |
| Pattern.MatchAt | pdf_extractor_filename.py:22 | a match found at `i` has the code shape: 2+ letters, at most one separator, then a digit-led alphanumeric run |
| Pattern.SliceHasCodeShape | pdf_extractor_filename.py:22 | letters, an optional separator and a digit-led alphanumeric run together form the code shape |
| Pattern.FindAll | pdf_extractor_filename.py:25 | every match `finditer` yields has the code shape |
| Pattern.NoDigitNoMatch | pdf_extractor_filename.py:22 | text without a digit yields no match |
| Pattern.SkipNoMatch | pdf_extractor_filename.py:25 | positions where no match starts are skipped without changing the matches |
| Pattern.ShapeParts | pdf_extractor_filename.py:22 | a string with the code shape splits into its letter part, optional separator and digit-led part |
| Pattern.MatchWhole | pdf_extractor_filename.py:22 | a string with the code shape is matched from its first to its last character |
| Pattern.CodeShapeMatchedWhole | pdf_extractor_filename.py:22 | a code-shaped string is the one and only match in itself, with or without `\b` |
| Pattern.MatchInside | pdf_extractor_filename.py:22 | a code-shaped word preceded and followed by a non-word character (or the ends of the text) is matched exactly from its start to its end |
| Pattern.ScanReaches | pdf_extractor_filename.py:25 | when no match starting before `q` runs past `q`, every match found from `q` is also found from any earlier position |
| Pattern.StopsAtSpace | pdf_extractor_filename.py:22 | a match never runs through a space that is followed by a letter |
| Pattern.SpacedCodeFound | pdf_extractor_filename.py:22-25 | a code-shaped word between spaces is one of the matches, whatever text surrounds it, with or without `\b` |
| Pattern.FoundBetweenSpaces | pdf_extractor_filename.py:22-25 | a code-shaped word with a space on each side, anywhere in a text, is one of the text's matches |
| CodeIndex.Names | main.py:193 | `[p.name for p in files]`, pointwise |
| CodeIndex.FilesOf | pdf_extractor_hybrid.py:56 | `[e["file"] for e in hits]`, pointwise |
| CodeIndex.Keys | pdf_extractor_hybrid.py:46 | the dictionary's keys, in insertion order |
| CodeIndex.LookupAbsent | main.py:264 | `get(code, [])` on a missing key reads the empty list |
| CodeIndex.Put | pdf_extractor_hybrid.py:47 | assignment keeps the key order when the key is present, and appends the key otherwise |
| CodeIndex.PutLookup | pdf_extractor_hybrid.py:47 | after assignment the key reads the new list and every other key reads what it read before |
| CodeIndex.PutValid | pdf_extractor_hybrid.py:47 | assignment keeps keys distinct |
| CodeIndex.PutTwice | pdf_extractor_hybrid.py:52 | assigning a key twice equals assigning it once, with the second value |
| CodeIndex.SetDefaultThenAppend | pdf_extractor_content.py:89 | `setdefault(code, []).append(h)` is the append alone |
| CodeIndex.PutNew | pdf_extractor_hybrid.py:46-47 | assigning a new key appends it as the last entry |
| CodeIndex.PutSame | pdf_extractor_hybrid.py:58 | writing back the list a key holds changes nothing |
| CodeIndex.PutOfSetDefault | pdf_extractor_filename.py:53 | `setdefault` followed by assignment equals the assignment, and the key is present afterwards |
| CodeIndex.PutNoEmpty | pdf_extractor_hybrid.py:47 | storing a non-empty list leaves no key with an empty list |
| CodeIndex.AppendHitNoEmpty | pdf_extractor_content.py:89 | appending a hit leaves no key with an empty list |
| CodeIndex.NoEmptyLookup | main.py:264-265 | when no list is empty, every present key reads a non-empty list |
| FilenameExtractor.ExtractCodesFromFilename | pdf_extractor_filename.py:15-31 | the codes of a name are duplicate-free and canonical, and each one normalises a code-shaped match of the fixed pattern |
| FilenameExtractor.AddCodesOfName | pdf_extractor_filename.py:52-61 | the per-name loop equals the fold that records the name under each of its codes |
| FilenameExtractor.BuildFilenameIndex | pdf_extractor_filename.py:34-69 | `by_code` and `debug_log` equal the fold over the files; `max_pages` has no effect |
| FilenameExtractor.NameHits | pdf_extractor_filename.py:57-61 | one hit per name, with page 0 and source "filename" |
| FilenameExtractor.AddNameHitLookup | pdf_extractor_filename.py:53-61 | recording a name adds its hit to that code only, and only when the code's list lacks the file |
| FilenameExtractor.AddNameHitsLookup | pdf_extractor_filename.py:52-61 | a name is added exactly to the codes found in it |
| FilenameExtractor.NameHitsFiles | pdf_extractor_filename.py:58 | the files of the name hits are the names, in order |
| FilenameExtractor.FilenameIndexLookup | pdf_extractor_filename.py:48-61 | a code's list holds one whole-document hit per distinct file whose name yields the code, in file order |
| FilenameExtractor.AddNameHitKeys | pdf_extractor_filename.py:53 | a code gets a new key, placed last, only when it was absent |
| FilenameExtractor.AddNameHitUniqueKeys | pdf_extractor_filename.py:53 | the keys stay the first occurrences of all codes seen so far |
| FilenameExtractor.AddNameHitsKeys | pdf_extractor_filename.py:52-53 | the keys after one name are the first occurrences of the earlier codes followed by this name's codes |
| FilenameExtractor.FilenameIndexKeys | pdf_extractor_filename.py:48-53 | keys appear in file order, then in extraction order within a file, each once |
| FilenameExtractor.FilesNamingFacts | pdf_extractor_filename.py:48-56 | the files listed for a code are exactly the input files whose names yield it |
| FilenameExtractor.FilenameHits | pdf_extractor_filename.py:56-61 | every hit is `{file, page 0, "filename"}` for an input file naming the code, files are distinct per code, and every such file is present |
| FilenameExtractor.FilenameIndexKeysCanonical | pdf_extractor_filename.py:28 | keys are distinct and canonical |
| FilenameExtractor.AllNameCodesCanonical | pdf_extractor_filename.py:28 | every code read from a name is canonical |
| FilenameExtractor.AddNameHitNoEmpty | pdf_extractor_filename.py:53-61 | the `setdefault` and append pair never leaves an empty list |
| FilenameExtractor.AddNameHitsNoEmpty | pdf_extractor_filename.py:52-61 | the per-name loop never leaves an empty list |
| FilenameExtractor.FilenameIndexNoEmpty | pdf_extractor_filename.py:48-61 | no code of the filename index has an empty list |
| FilenameExtractor.OneLetterPrefixNoCode | pdf_extractor_filename.py:22 | `A1-001.pdf` yields no code, because one letter is not enough |
| FilenameExtractor.OneLetterUnderscoreNoCode | pdf_extractor_filename.py:22 | `B2_2.pdf` yields no code, because one letter is not enough |
| FilenameExtractor.SpacedCodeInName | pdf_extractor_filename.py:15-31 | a code-shaped word between spaces in a file name gives its normalised code |
| FilenameExtractor.NoDigitNameNoCode | pdf_extractor_filename.py:74 | `documento_sin_codigo.pdf` yields no code |
| ContentExtractor.CollapseBackslashes | pdf_extractor_content.py:63 | collapsing doubled backslashes never lengthens the pattern |
| ContentExtractor.EscapeBackslashes | pdf_extractor_content.py:63 | the front end's doubling of backslashes never shortens the pattern |
| ContentExtractor.CollapseUndoesEscape | pdf_extractor_content.py:62-63 | collapsing undoes the front end's doubling of every backslash |
| ContentExtractor.CollapseKeepsSingleBackslashes | pdf_extractor_content.py:63 | a pattern without doubled backslashes is compiled as given |
| ContentExtractor.SelectMatcher | pdf_extractor_content.py:61-69 | a pattern that compiles is used with no log line; when compiling raises `re.error` the default pattern is used and two log lines are added |
| ContentExtractor.ExtractCodesFromText | pdf_extractor_content.py:15-26 | a text's codes are duplicate-free and canonical, contain the code of every match, and contain nothing else |
| ContentExtractor.ExtractCodesFromPage | pdf_extractor_content.py:29-40 | a page whose text extraction fails is read as the empty text |
| ContentExtractor.PageCodesWellFormed | pdf_extractor_content.py:23-26 | each page's codes are duplicate-free and canonical |
| ContentExtractor.PageCodeLists | pdf_extractor_content.py:84-86 | one code list per page |
| ContentExtractor.PageCodeListsAt | pdf_extractor_content.py:86 | list `i` holds the codes of page `i` |
| ContentExtractor.PageCodeListsWellFormed | pdf_extractor_content.py:86 | every page's list is duplicate-free and canonical |
| ContentExtractor.UnreadablePageDefault | pdf_extractor_content.py:34-40 | with the default pattern, a failed page contributes no codes |
| ContentExtractor.SpacedCodeInText | pdf_extractor_content.py:15-26 | under the default pattern, a code-shaped word between spaces in page text gives its normalised code |
| ContentExtractor.DefaultPatternExample | pdf_extractor_content.py:68 | the page text `ref MIA-000123 end` yields the code `MIA000123` under the default pattern |
| ContentExtractor.ScannedPages | pdf_extractor_content.py:80 | `range(min(n, max_pages))` scans `min(n, max_pages)` pages, never more than `n`, none when `max_pages <= 0` |
| ContentExtractor.AddCodesOfPage | pdf_extractor_content.py:88-96 | the per-page loop adds one hit per code and the codes that `file_codes` lacked |
| ContentExtractor.ScanFile | pdf_extractor_content.py:84-96 | the page loop equals the fold over the scanned pages |
| ContentExtractor.ProcessFile | pdf_extractor_content.py:78-106 | one file adds its pages' hits and log lines; an unreadable file adds only an error line |
| ContentExtractor.BuildContentIndex | pdf_extractor_content.py:43-108 | `by_code` and `debug_log` equal the fold over the files with the selected pattern |
| ContentExtractor.AddPageHitsLookup | pdf_extractor_content.py:88-93 | a page adds exactly one hit to each code it holds |
| ContentExtractor.ScanPagesLookup | pdf_extractor_content.py:84-93 | after the page loop, a code's list is its old list followed by one hit per scanned page holding it |
| ContentExtractor.ContentIndexLookup | pdf_extractor_content.py:74-102 | a code's list is its hits file by file, page by page |
| ContentExtractor.PageHitsFacts | pdf_extractor_content.py:84-93 | within one file, hits name the file, have source "content", lie in the scanned range, strictly ascend by page and cover every scanned page holding the code |
| ContentExtractor.ContentHitsFacts | pdf_extractor_content.py:74-102 | every hit is a content hit of a scanned page holding the code, and every such page has its hit |
| ContentExtractor.FileContentHitsFacts | pdf_extractor_content.py:78-93 | the same for one file; an unreadable file has none |
| ContentExtractor.ContentHitsSound | pdf_extractor_content.py:89-93 | every hit comes from a scanned page that holds the code |
| ContentExtractor.ContentHitsComplete | pdf_extractor_content.py:84-93 | every scanned page holding the code has its hit |
| ContentExtractor.AppendHitUniqueKeys | pdf_extractor_content.py:89 | appending keeps the keys as the first occurrences of all codes seen so far |
| ContentExtractor.AddPageHitsKeys | pdf_extractor_content.py:88-89 | after a page, the keys are the first occurrences of the earlier codes followed by the page's codes |
| ContentExtractor.ScanPagesKeys | pdf_extractor_content.py:84-89 | after a file, the keys extend in page order |
| ContentExtractor.AddNewUnique | pdf_extractor_content.py:95-96 | `file_codes` is the first-occurrence list of the codes met |
| ContentExtractor.FileCodesUnique | pdf_extractor_content.py:76-96 | a file's `file_codes` are its scanned pages' codes, each once, in order |
| ContentExtractor.ContentIndexKeys | pdf_extractor_content.py:74-89 | keys appear in file, page and extraction order, each once |
| ContentExtractor.PagesCodesCanonical | pdf_extractor_content.py:23 | all scanned codes are canonical |
| ContentExtractor.AllContentCodesCanonical | pdf_extractor_content.py:23 | every code of every file is canonical |
| ContentExtractor.ContentIndexKeysCanonical | pdf_extractor_content.py:23-89 | keys are distinct and canonical |
| ContentExtractor.NoPagesNoIndex | pdf_extractor_content.py:80-84 | with `max_pages <= 0` the index is empty |
| ContentExtractor.AddPageHitsNoEmpty | pdf_extractor_content.py:89 | a page never leaves an empty list |
| ContentExtractor.ScanPagesNoEmpty | pdf_extractor_content.py:84-89 | a file never leaves an empty list |
| ContentExtractor.ContentIndexNoEmpty | pdf_extractor_content.py:74-93 | no code of the content index has an empty list |
| HybridExtractor.CopyIndex | pdf_extractor_hybrid.py:43-47 | the copy loop reproduces the filename index, keys and lists alike |
| HybridExtractor.AdmitEntries | pdf_extractor_hybrid.py:51-58 | the entry loop equals the fold that admits an entry only when its file is not yet listed |
| HybridExtractor.MergeContent | pdf_extractor_hybrid.py:50-58 | the content loop equals the fold over the content keys |
| HybridExtractor.BuildHybridIndex | pdf_extractor_hybrid.py:15-70 | `by_code` is the merge of the two indexes, and `debug_log` is the banner, both logs and the four summary counts |
| HybridExtractor.FirstPerFileSnoc | pdf_extractor_hybrid.py:54-58 | one more entry is kept exactly when its file is new |
| HybridExtractor.AdmitAllIsFirstPerFile | pdf_extractor_hybrid.py:54-58 | the loop keeps the old list and appends the first entry of each file the list lacks, in entry order |
| HybridExtractor.FirstPerFileDistinct | pdf_extractor_hybrid.py:56-57 | the kept entries name distinct files |
| HybridExtractor.FirstPerFileOrigin | pdf_extractor_hybrid.py:54-58 | kept entries are entries whose files were not already listed |
| HybridExtractor.FirstPerFileCovers | pdf_extractor_hybrid.py:54-58 | every entry's file ends up listed |
| HybridExtractor.AdmitAllFacts | pdf_extractor_hybrid.py:54-58 | the old list is a prefix, distinct files stay distinct, every hit is old or an entry, every entry's file is listed, and appended hits have new files |
| HybridExtractor.AdmitAllAdds | pdf_extractor_hybrid.py:54-58 | the files of the old list and of the entries are all listed, and what follows the old list is entries of new files, in entry order |
| HybridExtractor.AdmitAllInOrder | pdf_extractor_hybrid.py:54-58 | the admitted entries are a subsequence of the entries |
| HybridExtractor.AdmitAllNonEmpty | pdf_extractor_hybrid.py:51-58 | starting from a non-empty list or with at least one entry gives a non-empty list |
| HybridExtractor.CombineLookup | pdf_extractor_hybrid.py:50-58 | a code's merged list is its filename list with its content entries admitted, or the filename list alone when content lacks the code |
| HybridExtractor.CombineKeys | pdf_extractor_hybrid.py:46-52 | the merged keys are the filename keys followed by the new content keys |
| HybridExtractor.HybridKeys | pdf_extractor_hybrid.py:46-52 | the hybrid keys are the union of both key sets, filename keys first, each once |
| HybridExtractor.CombineKeeps | pdf_extractor_hybrid.py:46-58 | the filename list is a prefix of the merged list, files stay distinct, and every hit comes from one of the two lists |
| HybridExtractor.CombineAdds | pdf_extractor_hybrid.py:50-58 | every file of either list is covered, and the tail holds content hits of new files, in content order |
| HybridExtractor.HybridLookup | pdf_extractor_hybrid.py:46-58 | per code, the filename hits come first, there is one hit per file, every hit comes from a mode, every file found by a mode is present, and the content tail keeps content order |
| HybridExtractor.CombineNoEmpty | pdf_extractor_hybrid.py:47-58 | merging non-empty lists leaves no empty list |
| HybridExtractor.HybridNoEmpty | pdf_extractor_hybrid.py:47-58 | every hybrid key maps to at least one hit |
| Uploads.StripStart | main.py:94 | exactly the leading whitespace is removed |
| Uploads.StripEnd | main.py:94 | exactly the trailing whitespace is removed |
| Uploads.StripUnchanged | main.py:94 | a string without whitespace at either end is its own `strip()` |
| Uploads.StripEnds | main.py:94 | `strip()` leaves no whitespace at either end |
| Uploads.ReplaceChar | main.py:94 | `replace(a, b)` for one character, pointwise |
| Uploads.CleanNameFacts | main.py:94 | the cleaned name has no `/` or `\` and no whitespace at either end |
| Uploads.WithPdfSuffixFacts | main.py:95-96 | the result ends in `.pdf` in any case, extends its input, is unchanged exactly when the input already ends so, and adds only `.pdf` |
| Uploads.WithPdfSuffixEnds | main.py:95-96 | adding the suffix keeps whitespace off both ends |
| Uploads.SafePdfNameFacts | main.py:93-97 | a safe name has no `/` or `\` and ends in `.pdf` in any case |
| Uploads.SafePdfNameKeepsSafeNames | main.py:93-97 | a name already safe is returned unchanged |
| Uploads.CleanNameUnchanged | main.py:94 | cleaning leaves a clean name unchanged |
| Uploads.SafePdfNameIdempotent | main.py:93-97 | `_safe_pdf_name` is idempotent |
| Uploads.NatDigits | main.py:110 | a number's decimal digits are non-empty and all digits |
| Uploads.DigitsValueOfNatDigits | main.py:110 | `int()` of a number's decimal digits is the number |
| Uploads.PartNumberOfPartName | main.py:103-110 | `base_N.pdf` in any letter case is part `N` of `base` |
| Uploads.PartNameHasPdfSuffix | main.py:103-106 | a part name has a `.pdf` suffix |
| Uploads.Seconds | main.py:115 | `[p for _, p in candidatos]`, pointwise |
| Uploads.FindParts | main.py:99-115 | the loop yields the candidates sorted by number |
| Uploads.CandidatesNumbers | main.py:105-111 | each candidate carries its name's part number |
| Uploads.CandidatesFacts | main.py:105-111 | the candidates are exactly the folder's part files, with their numbers |
| Uploads.FindPartsSound | main.py:103-115 | every returned name is a part file of the folder |
| Uploads.FindPartsComplete | main.py:103-115 | every part file of the folder is returned |
| Uploads.FindPartsSelects | main.py:103-115 | a name is returned exactly when it is a `.pdf` file matching `base_N.pdf` case-insensitively |
| Uploads.FindPartsOrdered | main.py:114-115 | the parts ascend by their number |
| Uploads.LowerNameLeIsTotalPreorder | main.py:189 | ordering by lower-cased name is a total preorder |
| Uploads.OpenAll | main.py:189-202 | each uploaded name is paired with what opening it yields |
| Uploads.BuildIndex | main.py:188-206 | the index is built from the uploads sorted by lower-cased name, with the scan mode's builder; no uploads is the 400 error |
| Uploads.IndexFiles | main.py:189-193 | the build fails exactly when no `.pdf` was uploaded; otherwise `files` is a permutation of the uploads ordered by lower-cased name, with names equal up to case kept in folder order |
| Uploads.IndexKeysCanonical | main.py:197-206 | whatever the scan mode, keys are distinct and canonical |
| Merge.HitLeTransitive | main.py:279 | the `(source, file.lower(), page)` order is transitive |
| Merge.HitLeIsTotalPreorder | main.py:279 | that order is a total preorder, so the stable sort applies |
| Merge.FromSource | main.py:272 | the filter keeps exactly the hits from the source, in their order |
| Merge.HitOps | main.py:288-292 | one operation per sorted hit, in order |
| Merge.Plans | main.py:263 | one plan per requested item, in request order |
| Merge.WholeDocument | main.py:259-261 | every page of the document, in order |
| Merge.WholeCopies | main.py:330-331 | one whole-document copy per part, in order |
| Merge.AddPage | main.py:247-253 | `add_page` copies the page only when it exists, and fails on an unreadable file |
| Merge.AddEntirePdf | main.py:255-261 | `add_entire_pdf` copies every page in order |
| Merge.AddHit | main.py:283-292 | a filename hit with `entire_pdf` copies the document; any other hit copies its page |
| Merge.AddHits | main.py:288-292 | the per-hit loop equals running the hits' operations in order |
| Merge.AddCode | main.py:264-292 | one code's pages are those of its plan |
| Merge.MergeByCode | main.py:263-298 | the endpoint's result equals running the codes' plans in order and then applying the zero-page rule |
| Merge.AddWholes | main.py:330-331 | the parts loop copies each part whole, in order |
| Merge.AddBase | main.py:324-331 | one base's pages are those of its plan |
| Merge.MergeByBases | main.py:316-334 | the endpoint's result equals running the bases' plans in order and then applying the zero-page rule |
| Merge.ThenAssociative | main.py:263-292 | chaining the writer's additions is associative, so a run can be split at any point |
| Merge.RunOpsAppend | main.py:288-292 | running two operation lists in a row runs their concatenation |
| Merge.RunAllAppend | main.py:263-292 | running two plan lists in a row runs their concatenation |
| Merge.RunOpsStops | main.py:250 | once an operation fails, the rest of its code adds nothing |
| Merge.RunAllStops | main.py:267 | once a code fails, the later codes add nothing |
| Merge.SortedHitsFacts | main.py:279 | sorted hits are a permutation, ordered, stable, and put every content hit before every filename hit |
| Merge.PlanCodeMissing | main.py:264-276 | a code fails exactly when `on_missing` is "error" and no hit passes the filter, with a 404 naming the case; it contributes nothing exactly when skipped |
| Merge.PlanCodeVerbatim | main.py:264 | codes are looked up as given, so a code that is not canonical is never found |
| Merge.PlanCodeFirst | main.py:279-286 | "first" emits one operation, for the earliest hit in index order among those with the least `(source, file.lower(), page)` key |
| Merge.SortedHeadEarliest | main.py:279-281 | the head of the stable sort is a least hit, and every hit before it in the input has a greater key |
| Merge.PlanCodeAll | main.py:287-292 | "all" emits one operation per filtered hit in sorted order: a whole copy for filename hits with `entire_pdf`, otherwise that hit's page |
| Merge.OpPagesFacts | main.py:247-261 | an operation fails exactly on an unreadable file; a page copy adds the page only when it exists; a whole copy adds every page |
| Merge.RunOpsInRange | main.py:247-261 | every copied page exists in its file |
| Merge.RunAllInRange | main.py:263-292 | every page of a merge exists in its file |
| Merge.FinishFacts | main.py:294-305 | a success has a non-empty document, counts its pages and is named by `_safe_pdf_name`; it fails with "no pages added" exactly when the run added nothing or already carried that error |
| Merge.MergeByCodePagesExist | main.py:294-303 | a successful `merge_by_code` holds at least one page, its page count is its length, and every page exists |
| Merge.RunAllFailsAt | main.py:263-267 | a failing plan makes the whole run fail |
| Merge.MergeByCodeFailsOnMissing | main.py:265-276 | with "error", a requested code with no usable hit makes the merge fail before writing, with the 404 unless an earlier code already failed, and never with the zero-page 400 |
| Merge.MergeByCodeMissingError | main.py:263-276 | when every earlier code succeeds, a code with no usable hit under "error" fails the merge with its 404: not found when the index lacks it, not from this source when the filter empties it |
| Merge.RunAllNoEmptyError | main.py:294-295 | the zero-page error is never produced by the loop itself |
| Merge.RunOpsNoEmptyError | main.py:294-295 | nor by one code's operations |
| Merge.PlansAppend | main.py:263 | planning a concatenation concatenates the plans |
| Merge.RunAllSkip | main.py:268 | an empty plan changes nothing |
| Merge.MergeByCodeSkipsMissing | main.py:265-276 | with "skip", a code with no usable hit can be dropped from the request without changing the outcome |
| Merge.PartsEmpty | main.py:324-325 | `_find_parts` is empty exactly when the folder has no part file of the base |
| Merge.BasePlanEmpty | main.py:323-329 | a base contributes nothing exactly when it has no parts and no `base.pdf` |
| Merge.BasePlanOrigin | main.py:323-331 | a base copies whole documents only: its part files, or `base.pdf` when there are no parts |
| Merge.BasePlanOrdered | main.py:330-331 | the parts are copied in ascending part number |
| Merge.MergeByBasesPagesExist | main.py:333-342 | a successful `merge_by_bases` holds at least one page, its page count is its length, and every page exists |
| Merge.MergeByBasesReadable | main.py:323-334 | when every document the bases name is readable, the run succeeds and the merge fails exactly when no page was added, and then only with the zero-page 400 |
| Merge.RunAllReadable | main.py:323-331 | when every planned file is readable, the merge loop does not fail |
| Merge.RunOpsReadable | main.py:316-321 | when every file is readable, copying them does not fail |

## Left out

- HTTP and storage are not modelled. This covers the FastAPI endpoints, workspaces,
  uploads, the JSON index files, `debug_log.txt`, the response bodies (`index_sample`,
  `debug_log[:10]`, `download_url`) and writing the merged file. `merge_by_code` takes
  `by_code` as a parameter instead of reading the saved index.
- pypdf is not modelled.
  - Opening a file becomes an `open` function from name to `Option` of page texts.
    A failed page text becomes `None`.
  - A merge reads only a page count through a `PageCount` function. A reader error is
    the `UnreadablePdf` error.
  - The writer is the list of `PageRef`s it receives.
- The regex engine is not modelled. `re.compile` becomes a function from pattern to
  `Option<Matcher>`, and a caller's pattern is that `Matcher`. Only the fixed file-name
  pattern and the default content pattern are scanned concretely.
- Only ASCII text is modelled. Python's Unicode `upper()`, `lower()`, `\s`, `\d` and
  `int()` on non-ASCII digits are out of scope.
- The debug log keeps each line's kind and numbers, not its wording.
- `build_content_index`'s counters `files_processed` and `codes_found` are left out,
  because they are never returned.
- `build_index`'s catch-all 500 is left out. Apart from the pattern compilation
  below, it wraps calls that, in this model, cannot raise.
- ContentExtractor.SelectMatcher: `None` from `compile` stands for `re.error` only.
  `re.compile` can raise other exceptions, such as `OverflowError` for a repeat count
  that is too large (`x{4294967295}`). Such an exception escapes the fallback, leaves
  `build_content_index` and `build_hybrid_index`, and makes `build_index` answer with
  the 500. That path is not modelled.
- Handlers that cannot fire are left out:
  - the per-page `except` in `build_content_index`, because `extract_codes_from_page`
    guards only the text extraction and `extract_codes_from_text` cannot raise on a
    string;
  - the `except` in `build_filename_index`;
  - the `ValueError` branch of `_find_parts`, because the digits are ASCII;
  - the invalid `scan_mode` branch, because the request model restricts the mode.
- The folder is modelled as a flat list of entries, with a name and a file flag.
  - A base containing `/` that reaches into a sub-directory is out of scope.
  - `simple.exists()` is true for any entry with that name, directories included.
    Reading a directory is then the `UnreadablePdf` error.
- Merge.MergeByBases: MergeByBases and MergeByCode state their result, but do not
  model the PDF left on disk when an error is raised midway. Nothing is written before
  the final check, so no file is left.
