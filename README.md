# PSS generator: verified model of the placeholder-substitution core

`pss.py` is a small Streamlit application. It fills a Word template for a
Pre-Shipment Sample (PSS) letter from a form. The user gives:

- a code ("001" selects the MOD template, "002" the FAR template);
- a date;
- a P.O. number;
- four batch values B1 to B4;
- the container numbers.

The application then:

- finds the template file;
- builds an ordered token-to-value dictionary;
- replaces every placeholder in the body, the tables (at any depth), and every section's header and footer;
- offers the result under a file name composed from the inputs.

This project models that core in Dafny and proves what it guarantees:

- `text.dfy` (module `Text`) holds the Python string operations the core depends on:
  - `str.strip()` over the `str.isspace()` character set;
  - the substring test `key in text`;
  - `str.replace(key, val)`, scanning left to right with non-overlapping matches and never rescanning inserted text. The empty key, which inserts the value around every character, is included.
- `tokenmap.dfy` (module `TokenMap`) holds the token dictionary:
  - it is a sequence of pairs in insertion order, with `d[k] = v` as `Put`;
  - `ApplyMapping` is the fold of replace-all steps that `replace_in_paragraph_by_text` runs on a paragraph's text;
  - `BuildMapping` is the imperative builder of the dictionary (date, P.O. with its "PO012" default, batch slots);
  - the file proves why the wrapped spelling `{{B1}}` has to be registered before the bare `B1`.
- `document.dfy` (module `Substitution`) holds the substitution engine:
  - the document tree: blocks of paragraphs and tables, tables of rows of cells, and cells that are blocks again;
  - sections with an optional header and footer;
  - specification functions, and the traversal methods as the source loops them;
  - a `Document` class whose `ApplyReplacements` rewrites the body and then every section.
  - Lemmas show that every paragraph at any depth gets exactly its own text rewritten, that the tree keeps its shape, that a block comes out unchanged exactly when no text changes, and that a failing header or footer affects nothing else.
- `template.dfy` (module `Template`) holds the template lookup. The code is trimmed and mapped to its candidate paths, and the first path that exists wins.
- `filename.dfy` (module `Filename`) holds the download file name:
  - the label for the code;
  - removal of `/ : * ? " < > |` from the P.O. (a backslash is kept);
  - the last three characters or "000";
  - the container numbers in decimal;
  - a parser that reads a composed name back, giving round-trip and injectivity results.
- `wrappers.dfy` (module `Wrappers`) holds the `Option` type.

The wrapped-before-bare order turns a trailing `{{name}}` into exactly its value when three conditions hold (TokenMap.WrappedThenBare): the text with the token in place holds no earlier key; the token's only occurrence there is its own; and the text with the value in place of the token holds no later key, the bare spelling included. The conditions are on the joined texts: "Lot B" followed by `{{B1}}` with B1 = "1" has the bare `B1` form again across the join and comes out as "Lot 1" (TokenMap.ReformsAcrossJoin). Text.ReplaceAllCanReform shows that, in general, replace-all can leave a key behind.

## Model

| member | source | states |
|---|---|---|
| Text.Strip | pss.py:53 | Python's `strip()`: the left trim followed by the right trim (its properties are the rows below) |
| Text.TrimLeft | pss.py:53 | leading whitespace removed: the result is a suffix of the input, all that was cut is whitespace, and the result does not start with whitespace |
| Text.TrimRight | pss.py:53 | trailing whitespace removed: the result is a prefix, all that was cut is whitespace, and the result does not end with whitespace |
| Text.StripSplits | pss.py:53 | `strip()` returns a contiguous piece of the input with only whitespace before and after it |
| Text.SplitsFromTrims | pss.py:53 | a whitespace-cut suffix followed by a whitespace-cut prefix of it is a piece with only whitespace around it |
| Text.StripEmptyIffAllSpace | pss.py:108 | `strip()` is empty exactly when the input is all whitespace (so `po_id.strip()` is falsy exactly for blank input) |
| Text.StripEnds | pss.py:108 | a non-empty stripped string starts and ends with a non-space character |
| Text.StripIdempotent | pss.py:53 | stripping twice is stripping once |
| Text.StripUnpadded | pss.py:53 | a string with no whitespace at either end is its own `strip()` |
| Text.InsertAround | pss.py:18 | `s.replace("", val)` has length `|s| + (|s|+1)·|val|`: one copy of `val` per gap |
| Text.InsertAroundSingle | pss.py:18 | one character gets `val` on both sides |
| Text.InsertAroundConcat | pss.py:18 | the result for `a + b` is the result for `a` followed by the result for `b` without its leading `val`; with the single-character and empty cases this fixes every character |
| Text.Contains | pss.py:17 | `key in new_text`: some position holds an occurrence of the key (the empty key occurs everywhere) |
| Text.ReplaceAll | pss.py:18 | `new_text.replace(key, val)`: leftmost, non-overlapping replacement with no rescan (its properties are the rows below) |
| Text.ReplaceAllAbsent | pss.py:17-18 | replacing a key that does not occur changes nothing, so the `if key in new_text` guard does not alter the result |
| Text.ReplaceAllSelf | pss.py:18 | replacing a key by itself gives back the text |
| Text.ReplaceAllSkip | pss.py:18 | a stretch in which no occurrence starts is copied unchanged, and replacement continues after it |
| Text.ReplaceAllNoMatchHere | pss.py:18 | where no occurrence starts, the first character is copied and the scan moves on one position |
| Text.ReplaceAllAtMatch | pss.py:18 | a text that starts with the key gets the value in place of that occurrence, then the rest replaced |
| Text.ReplaceAllLeavesNoKey | pss.py:18 | with a non-empty value sharing no character with the key, no occurrence of the key remains |
| Text.NoKeyAtFront | pss.py:18 | when the text does not start with the key and no match starts in its first `n` positions, the replaced text does not start with the key |
| Text.ReplaceAllCanReform | pss.py:18 | with an empty value an occurrence can re-form: "BB22" with "B2" removed gives "B2" |
| TokenMap.Put | pss.py:105 | `mapping[k] = v` on a dict kept as its items in insertion order (PutSpec states its contract) |
| TokenMap.Step | pss.py:17-18 | one loop iteration: replace-all when the key occurs, the text otherwise |
| TokenMap.ApplyMapping | pss.py:16-18 | the loop over `mapping.items()` as a left fold of Step in insertion order |
| TokenMap.PutSpec | pss.py:105-106 | `d[k] = v` keeps keys distinct, the key maps to `v`, other entries keep place and value, and the dict grows only for a new key |
| TokenMap.StepIsReplaceAll | pss.py:17-18 | one loop iteration equals an unconditional replace-all |
| TokenMap.ApplyMappingAppend | pss.py:16-18 | applying `m1 + m2` is applying `m1`, then `m2` (the left fold in insertion order) |
| TokenMap.ApplyMappingAbsent | pss.py:16-18 | a text holding no key is returned unchanged |
| TokenMap.Wrap | pss.py:105 | the wrapped spelling is the name with two characters on each side |
| TokenMap.PoValue | pss.py:108 | `po_id.strip()` when that is non-empty, "PO012" otherwise (PoValueSpec states its contract) |
| TokenMap.PoValueSpec | pss.py:108 | the P.O. value is never empty; it is "PO012" for blank input and the stripped input otherwise, with no surrounding whitespace |
| TokenMap.TokenMapping | pss.py:104-119 | the eleven entries the dict ends with, in insertion order |
| TokenMap.BlankPoIsDefault | pss.py:108 | every blank P.O., the empty one included, is replaced by "PO012" |
| TokenMap.NonBlankPoIsStripped | pss.py:108 | any other P.O. becomes its stripped form, which is non-empty and has no whitespace at either end |
| TokenMap.BuildMapping | pss.py:104-119 | the built dict is exactly the eleven entries in the source's order, with the P.O. entry holding the defaulted value of line 108 |
| TokenMap.FillMapping | pss.py:104-119 | the assignments, the one-key loop for `{{PO012}}` included, leave exactly the eleven entries in the source's order for a given P.O. value |
| TokenMap.AssignmentsGiveTokenMapping | pss.py:104-119 | the eleven `d[k] = v` assignments in order, each of a key not yet present, give the eleven entries in order |
| TokenMap.AssignPair | pss.py:105-106 | assigning two consecutive entries of a dict with distinct keys, in order, rebuilds that dict's prefix two entries longer |
| TokenMap.PutNext | pss.py:105 | assigning the next entry of a dict with distinct keys extends the rebuilt prefix by exactly that entry |
| TokenMap.TokenMappingKeysDistinct | pss.py:104-119 | the eleven keys are pairwise distinct |
| TokenMap.PoRegisteredWrappedOnly | pss.py:109-110 | the P.O. value is registered only under `{{PO012}}`; bare `PO012` is not a key |
| TokenMap.WrappedBeforeBare | pss.py:105-106 | the date and B1..B4 are each registered wrapped first, immediately followed by the bare spelling, with the same value |
| TokenMap.WrappedThenBare | pss.py:16-18 | with the wrapped key immediately before the bare one, a trailing `{{name}}` becomes exactly the value when the text with the token in place holds no earlier key and no earlier occurrence of the token, and the text with the value in place holds no later key (the bare spelling included) |
| TokenMap.ReformsAcrossJoin | pss.py:112-113 | a text ending in `B` followed by `{{B1}}`, with B1 = "1", loses that `B` under the built mapping ("Lot B{{B1}}" becomes "Lot 1"), for any date, P.O. value and other batches |
| TokenMap.SlotB1Reforms | pss.py:112-113 | the two B1 entries alone turn a text ending in `B{{B1}}` into the text before the `B` followed by "1" |
| TokenMap.TrailingKeyStep | pss.py:17-18 | a key at the end of a text with no earlier occurrence is replaced there and nowhere else |
| TokenMap.WrappedSlotComesOutClean | pss.py:112-113 | a text ending in `{{B1}}` (such as "Sending you Pre-Shipment sample of {{B1}}") whose earlier part holds none of `D`, `0`, `B`, `{` becomes that part followed by exactly B1's value under the built mapping, for any date, P.O. value and other batches, when B1's value holds no `B` |
| TokenMap.BareFirstLeavesBraces | pss.py:112-113 | with the bare key first, `{{name}}` would become `{{value}}` (`{{B1}}` would become `{{LOT-44}}`), for every name not starting with a brace and every value lacking the name's first character |
| TokenMap.BareKeyInsideToken | pss.py:113 | the bare key matches between the braces of the wrapped token, so one replace-all turns `{{name}}` into `{{value}}` |
| Substitution.TextOf | pss.py:14 | the `paragraph.text` getter: the run texts joined in order |
| Substitution.SubstParagraph | pss.py:9-21 | the new text is the mapping folded over the joined run text; the paragraph is unchanged exactly when that text is unchanged, and otherwise becomes a single run with the new text |
| Substitution.SubstBlock | pss.py:28-35 | every paragraph of a block rewritten, then every table (SubstBlockTexts, SubstBlockShape and SubstBlockIdentity state its properties) |
| Substitution.SubstTable | pss.py:23-26 | every cell of every row rewritten as a block |
| Substitution.SubstRow | pss.py:24-26 | every cell of one row rewritten as a block |
| Substitution.SubstSection | pss.py:41-49 | a present header and footer are rewritten; a failing (absent) one is skipped |
| Substitution.SubstSections | pss.py:40-49 | every section processed in order |
| Substitution.ReplaceInParagraph | pss.py:9-21 | the loop over the dict items followed by the conditional rewrite computes `SubstParagraph` |
| Substitution.ReplaceInBlock | pss.py:28-35 | visiting each paragraph, then each table, computes `SubstBlock` |
| Substitution.ReplaceInTable | pss.py:23-26 | visiting every cell of every row as a block computes `SubstTable` |
| Substitution.Document.ApplyReplacements | pss.py:37-49 | the body is substituted, then the header and footer of every section; a failing one stays failed and the rest are still processed |
| Substitution.SplitTokenReplaced | pss.py:10-18 | a token split across runs is found in the joined text, and the paragraph becomes the single run holding the value |
| Substitution.UntouchedParagraph | pss.py:19-21 | a paragraph in which no key occurs keeps its runs exactly |
| Substitution.SubstBlockTexts | pss.py:23-35 | the texts of the substituted block are the original texts, one for one and in order, each with the mapping applied on its own (every cell at every depth is reached, and no match spans two paragraphs) |
| Substitution.SubstTableTexts | pss.py:23-26 | the same for a table |
| Substitution.SubstRowTexts | pss.py:24-26 | the same for a row of cells |
| Substitution.SubstBlockShape | pss.py:28-35 | substitution keeps the number of paragraphs and tables of every block, and the rows and cells of every table |
| Substitution.SubstTableShape | pss.py:23-26 | the same for a table |
| Substitution.SubstRowShape | pss.py:24-26 | the same for a row |
| Substitution.SubstBlockIdentity | pss.py:19-35 | a block comes out identical exactly when the mapping changes none of its paragraph texts |
| Substitution.SubstTableIdentity | pss.py:19-26 | the same for a table |
| Substitution.SubstRowIdentity | pss.py:19-26 | the same for a row |
| Substitution.UntouchedBlock | pss.py:28-35 | a block in whose paragraphs no key occurs is left exactly as it was |
| Substitution.SubstDocumentTexts | pss.py:37-49 | the processed document's texts (body, then each present header and footer) are the original texts, each with the mapping applied |
| Substitution.HeaderFailureIsolated | pss.py:42-45 | a failing header changes nothing in the outcome for the other headers or any footer; the body does not depend on the sections at all, by the first `ensures` of Substitution.Document.ApplyReplacements |
| Substitution.FooterFailureIsolated | pss.py:46-49 | a failing footer changes nothing in the outcome for the headers or any other footer; the body does not depend on the sections at all, by the first `ensures` of Substitution.Document.ApplyReplacements |
| Template.CodeLabel | pss.py:54-58 | "001" selects MOD and "002" selects FAR; every other code selects nothing |
| Template.Candidates | pss.py:54-57 | MOD's and FAR's candidate lists, three paths each in the order tried |
| Template.FirstExisting | pss.py:60-63 | the result is a present candidate, or none exactly when no candidate is present |
| Template.FirstExistingIsFirst | pss.py:60-62 | the result is the first present candidate: no earlier candidate is present |
| Template.FindLocalTemplate | pss.py:51-63 | `find_local_template_for_code`: the trimmed code's label selects the candidates, and the first present one wins (FindLocalTemplateSpec states its contract) |
| Template.FindLocalTemplateSpec | pss.py:52-63 | an unrecognised trimmed code gives none; "001" and "002" give a present path among their three candidates, or none exactly when none of the three is present |
| Template.LocalCopyPreferred | pss.py:55-62 | when "MOD PSS.docx" exists, code "001" uses it |
| Template.FindLocalTemplateTrims | pss.py:53 | surrounding whitespace in the code does not matter, and a missing code behaves as the empty one and gives none |
| Filename.Suffix | pss.py:133 | the label is MOD exactly for "001", FAR exactly for "002", and GEN for every other code |
| Filename.IsForbidden | pss.py:134 | the character class `[\/:*?"<>|]`: slash, colon, star, question mark, double quote, angle brackets and bar |
| Filename.SafePo | pss.py:134 | no removed character is left, and the result is no longer than the input |
| Filename.SafePoConcat | pss.py:134 | removal distributes over concatenation, so the order of the kept characters is preserved |
| Filename.SafePoClean | pss.py:134 | a P.O. with nothing to remove is kept as is (removal is idempotent) |
| Filename.SafePoKeepsOthers | pss.py:134 | every removed character occurs zero times afterwards, and every other character (the backslash included) occurs as often as before |
| Filename.PoSuffix | pss.py:135 | three characters: the end of the cleaned P.O. when it has at least three, otherwise "000" |
| Filename.NatToDecimal | pss.py:136 | a non-empty string of digits with no leading zero |
| Filename.IntToDecimal | pss.py:136 | a non-empty string with no space |
| Filename.NatDecimalRoundTrip | pss.py:136 | the digits written for `n` read back as `n` |
| Filename.IntDecimalRoundTrip | pss.py:136 | the decimal written for any integer, negative ones included, parses back to it |
| Filename.ComposeFilename | pss.py:136 | the f-string `PSS LIPL {suffix} {po_suffix} {current} of {total}.docx` (FilenameRoundTrip, FilenameInjective and FilenameClean state its properties) |
| Filename.FilenameRoundTrip | pss.py:136 | label, P.O. ending and both container numbers can be read back from the composed name |
| Filename.FilenameInjective | pss.py:133-136 | two composed names are equal only when label, P.O. ending and both numbers are equal |
| Filename.FilenameClean | pss.py:134-136 | the composed name holds none of `/ : * ? " < > |` |
| Filename.BlankPoSuffix | pss.py:134-135 | every blank P.O., the empty one included, becomes "PO012", whose ending is "012" |
| Filename.DefaultPoSuffix | pss.py:134-135 | "PO012" has nothing to remove and ends in "012" |
| Filename.DefaultFilename | pss.py:133-136 | code "001", any blank P.O. and container 1 of 2 give "PSS LIPL MOD 012 1 of 2.docx" |
| Filename.DefaultComposed | pss.py:133-136 | code "001", the P.O. "PO012" and container 1 of 2 give "PSS LIPL MOD 012 1 of 2.docx" |

## Left out

- The Streamlit user interface is not modelled: the page, the form widgets, `st.session_state`, the messages and the download button (pss.py:75-99, 122-150). The inputs are plain parameters. The code reaching the file name is the one already trimmed when it is read (pss.py:86).
- python-docx loading and saving (`Document(path)`, `doc.save`, `BytesIO`, pss.py:66-72) is a foreign library. The document is the `Block`/`Section` tree, and its OOXML form is not modelled.
- `paragraph.text` is modelled as the concatenation of the run texts. Assigning it is modelled as "one run holding the new text". Run formatting, hyperlinks, and python-docx's conversion of tabs and line breaks into separate elements are left out.
- `os.path.exists` (pss.py:61) is the `present` parameter, a total predicate on paths. The filesystem state is not modelled.
- The date formatting `strftime("%d/%m/%Y")` (pss.py:101) is a library call. The formatted date is an input string.
- Substitution.Document.ApplyReplacements models the blanket `except Exception` (pss.py:44-49) only for a header or footer that fails before any change: it is `None` and is skipped. An exception raised part-way through a header, after some paragraphs were already rewritten, is not modelled. The failure in `create_docx_from_template_file` (pss.py:141-142) is not modelled either.
- Substitution.Document.ApplyReplacements treats every header, footer and cell as its own copy. In python-docx, a header linked to the previous section is the same XML part, and a merged cell appears more than once in `row.cells`. Such a part is therefore substituted more than once in place, and applying the mapping twice need not equal applying it once. That aliasing is not modelled.
- Text.ReplaceAll includes the empty-key case of `str.replace` for completeness. The built mapping never has an empty key.
- The integer conversion `int(current_container)` is modelled on unbounded integers, negative ones included. The form's `min_value=1` is not a constraint of the composition, so no `current <= total` or positivity is assumed.
