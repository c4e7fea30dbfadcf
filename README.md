# isic4kit dataset loader, modelled in Dafny

isic4kit gives access to the ISIC Rev. 4 industrial-activity classification. This is a
four-level tree: Section → Division → Group → Class. The tree is loaded from a
language-specific JSON dataset. This project models the loader, `ISICLoaderMixin._load_data`
in `isic4kit/loader.py`. The loader works in two steps:

1. **Failure step.** It looks up `data/<language>.json`. If that file does not exist, it raises a
   `ValueError`: `Language '<language>' is not supported. Available languages: `, followed by
   the stems of the `*.json` files, sorted and joined with `", "`. Nothing is changed before
   the raise.
2. **Decode step.** It resets `self.sections` to `[]`. It then appends one `ISICSection` per
   record of `data["sections"]`. Each record's divisions, groups and classes come from nested
   list comprehensions. Each level reads its code from its own key (`"section"`, `"division"`,
   `"group"`, `"class"`), its description from `"description"`, and its children from
   `"divisions"`, `"groups"` or `"classes"`.

Modules:

- `wrappers.dfy` (`Wrappers`): `Option`. `None` stands for the `KeyError`/`TypeError` that
  Python raises on a malformed record.
- `json.dfy` (`Json`): the parsed JSON value, plus the three ways the loader reads it.
  `Field` is `j[key]`, `StringField` is a string-valued `j[key]`, and `Items` is what
  `for x in j` visits.
- `taxonomy.dfy` (`Taxonomy`): the `Section`, `Division`, `Group` and `Class` datatypes, plus
  leaf counts. `Class` has no children field: classes are leaves.
- `decode.dfy` (`Decode`): the pure part.
  - `DecodeAll` is one list comprehension. `DecodePrefix` is what an appending loop has
    collected when it stops at a bad record.
  - `DecodeClass`, `DecodeGroup`, `DecodeDivision` and `DecodeSection` are the per-level
    constructors.
  - The file also holds the inverse encoders with round-trip lemmas, and the leaf-count lemmas.
- `languages.dfy` (`Languages`): the error message.
  - `AtMost` is Python's string order. `SortStems` is `sorted`, and the file proves that the
    sorted order is unique.
  - `Join` is `", ".join`. `Listing` is the sorted stems joined with `", "`.
    `UnsupportedMessage` is the `ValueError` text: `Header` followed by `Listing`.
- `loader.dfy` (`Loader`): the data directory as a list of `DataFile(stem, content)` entries.
  - `FindFile` is the open-and-parse step.
  - `Load` is a whole load as a function, with lemmas about it.
  - The class `ISICLoader` has the fields `language` and `sections`. Its method `LoadData` has
    the reset-then-append loop and is proved to implement `Load`.

Two consequences of the order of operations in the code:

- `sections` is reset at `isic4kit/loader.py:28`, before `data["sections"]` is read, and the
  loop appends one section at a time. So a record that raises `KeyError` or `TypeError` leaves
  `sections` holding the sections decoded before it, not the ones held before the call.
  `Load` and `LoadData` model exactly this (`DecodePrefix`).
- A missing data file is the only failure the loader turns into its own exception: a single
  `ValueError`, the one above. Of the failures modelled here, only the missing file leaves
  `sections` untouched. A file that is not valid JSON, or that `open` cannot read for another
  reason, also fails before the reset, but those failures are not modelled (see below).

## Model

| member | source | states |
|---|---|---|
| Json.Field | isic4kit/loader.py:31-32 | `record[key]` yields a value exactly when the record is an object holding the key; any other subscript raises. |
| Json.StringField | isic4kit/loader.py:31-32 | A code or description read as `record[key]` is a string exactly when the record is an object holding the key and its value is a JSON string. The result is that string. |
| Json.Items | isic4kit/loader.py:29-31 | Iterating a list visits its items. An empty string or an empty object visits nothing. Iteration fails exactly for null, booleans, numbers, and a non-empty string or object. Those last two are iterable, but their elements are strings, and subscripting a string by a key fails (`isic4kit/loader.py:31`). |
| Json.FieldItems | isic4kit/loader.py:29 | `for x in j[key]` succeeds exactly when `j[key]` exists and `Items` can read it, and then visits exactly those items. It fails whenever `j[key]` does. |
| Decode.DecodeAll | isic4kit/loader.py:41-52 | A list comprehension succeeds exactly when every element decodes. The result then has one element per input element, in order, each the decoding of its input. |
| Decode.DecodeAllOf | isic4kit/loader.py:41-52 | A comprehension's result is determined by its elements: any sequence that corresponds element by element to the input is the result. |
| Decode.DecodePrefix | isic4kit/loader.py:28-55 | After a bad record, the appending loop holds the decodings of all records before the first bad one. That record exists and fails. |
| Decode.DecodePrefixOf | isic4kit/loader.py:29-55 | A loop that decoded the first `i` records and then met a failing one holds exactly `DecodePrefix`. |
| Decode.DecodePrefixAgrees | isic4kit/loader.py:28-55 | If every record decodes, the loop's collection equals the comprehension's result. Otherwise the comprehension fails and the loop stopped before the end. |
| Decode.DecodeClass | isic4kit/loader.py:42-45 | A class decodes exactly when `"class"` and `"description"` are strings. Its code and description are those strings, copied verbatim, and it has no children. |
| Decode.DecodeGroup | isic4kit/loader.py:38-48 | A group decodes exactly when `"group"` and `"description"` are strings and every element of `"classes"` decodes. Its classes correspond one to one, in order, with `"classes"`. |
| Decode.DecodeDivision | isic4kit/loader.py:34-51 | The same as for groups, with the code from `"division"` and the groups from `"groups"`. |
| Decode.DecodeSection | isic4kit/loader.py:30-54 | The same as for groups, with the code from `"section"` and the divisions from `"divisions"`. |
| Decode.RoundTripAll | isic4kit/loader.py:41-52 | A comprehension over encoded elements gives back the original sequence when each element round-trips. |
| Decode.ClassRoundTrip | isic4kit/loader.py:42-45 | Decoding a class's own record gives the class back. |
| Decode.GroupRoundTrip | isic4kit/loader.py:38-48 | Decoding a group's own record gives the group back, with all its classes. |
| Decode.DivisionRoundTrip | isic4kit/loader.py:34-51 | Decoding a division's own record gives the division back, with its whole subtree. |
| Decode.SectionRoundTrip | isic4kit/loader.py:30-54 | Decoding a section's own record gives the section back with its whole subtree, so the decoder loses nothing. |
| Decode.DivisionClassCountPreserved | isic4kit/loader.py:34-51 | A decoded division has as many classes as its input has `"classes"` entries. |
| Decode.SectionClassCountPreserved | isic4kit/loader.py:30-54 | A decoded section has as many classes as its input has `"classes"` entries. |
| Decode.ClassCountPreserved | isic4kit/loader.py:29-55 | After a successful decode, the total number of leaves equals the number of `"classes"` entries in the input. Nothing is filtered or merged. |
| Languages.AtMostPrefix | isic4kit/loader.py:25 | In Python's string order a prefix comes before every string it begins, and a string never comes before its own proper prefix. |
| Languages.AtMostTotal | isic4kit/loader.py:25 | Python's string order is total: any two strings are comparable. |
| Languages.AtMostTransitive | isic4kit/loader.py:25 | Python's string order is transitive. |
| Languages.AtMostAntisymmetric | isic4kit/loader.py:25 | Two strings that are each at most the other are equal. |
| Languages.Insert | isic4kit/loader.py:25 | Inserting into a sorted list keeps it sorted and adds exactly that one element. |
| Languages.SortStems | isic4kit/loader.py:25 | `sorted(stems)` is in ascending order and is a permutation of the stems. |
| Languages.SortedUnique | isic4kit/loader.py:25 | Two sorted permutations of the same strings are equal, so `SortStems` is exactly Python's `sorted`. |
| Languages.SortStemsAnyOrder | isic4kit/loader.py:20-25 | The sorted listing does not depend on the order the directory scan returns files in. |
| Languages.Join | isic4kit/loader.py:25 | Joining no elements gives the empty string. |
| Languages.JoinLength | isic4kit/loader.py:25 | `sep.join(xs)` is as long as all elements together plus one separator between each pair of neighbours. |
| Languages.JoinElement | isic4kit/loader.py:25 | `sep.join(xs)` holds each element at its offset and ends with the last element. |
| Languages.JoinSeparator | isic4kit/loader.py:25 | In `sep.join(xs)`, exactly one `sep` stands between neighbouring elements. |
| Languages.UnsupportedMessage | isic4kit/loader.py:23-26 | The message is exactly the header `Language '<language>' is not supported. Available languages: ` followed by the listing of the available stems: the header starts it, the language sits at position 10, and the listing follows the header and ends the message. |
| Languages.UnsupportedMessageNamesLanguage | isic4kit/loader.py:24 | The message starts with `Language '` followed by the language. |
| Languages.ListingHasStem | isic4kit/loader.py:20-25 | Every available stem occurs in the listing, at its place in sorted order. |
| Languages.UnsupportedMessageAnyOrder | isic4kit/loader.py:20-25 | The message is the same whatever order the directory scan lists the files in. |
| Loader.Stems | isic4kit/loader.py:20-22 | The scan yields one stem per data file, in listing order. |
| Loader.FindFile | isic4kit/loader.py:15-19 | Opening `data/<language>.json` fails exactly when no data file has that stem. Otherwise it yields the content of a file with that stem. |
| Loader.Load | isic4kit/loader.py:15-55 | A load raises the `ValueError` exactly when the language has no data file, and then `sections` is unchanged. A successful load holds one decoded section per record of `data["sections"]`, in order. When the file exists but `data["sections"]` is missing or cannot be iterated, the load fails after the reset at line 28, so `sections` ends empty. |
| Loader.LoadMissingFile | isic4kit/loader.py:16-28 | A load fails with the `ValueError` exactly when the language has no data file. The message is `UnsupportedMessage` over all stems and does not list the language. `sections` is unchanged. |
| Loader.LoadReplaces | isic4kit/loader.py:28 | Once the file exists, the result does not depend on the previous `sections`: a load replaces, it does not accumulate. |
| Loader.LoadIdempotent | isic4kit/loader.py:28-55 | Loading twice gives the same outcome and sections as loading once. |
| Loader.LoadSections | isic4kit/loader.py:28-55 | A load succeeds exactly when every record decodes. On success there is one section per record, in order, with the same total number of classes. Otherwise it raises and `sections` holds the records decoded before the first bad one. |
| Loader.LoadEncoded | isic4kit/loader.py:28-55 | Any section tree is loaded back exactly from its own dataset file. |
| Loader.ISICLoader.constructor | tests/test_isic4.py:54-60 | A loader starts with its language and no sections. |
| Loader.ISICLoader.LoadData | isic4kit/loader.py:9-55 | The method leaves `language` alone. Its outcome and new `sections` are `Load` of the data directory, the language and the old `sections`. |
| Loader.LoadTwoClassifiers | tests/test_isic4.py:44-48 | Two classifiers that load the same data for the same language hold equal trees. |

## Left out

- File I/O and the JSON parser are not modelled. The data directory is an input: a list of
  `DataFile(stem, content)` entries in the scan's order, each holding the already-parsed value.
  A file that exists but is not valid JSON (`JSONDecodeError`) is not modelled, and neither is
  an `open` failure other than a missing file.
- `Loader.FindFile` and `Loader.Load` take the language to be a plain file name: no `/`, no
  `..`, and an exact, case-sensitive match against the stems. A language such as `../data/en`,
  or a case-insensitive filesystem, would let `open` find a file that the scan does not list.
- File names are assumed to be `<stem>.json` with a non-empty stem. A file named `.json`, or a
  directory whose name ends in `.json`, is not modelled.
- The scan (`isic4kit/loader.py:21`) and the `open` (line 17) are two separate file-system
  calls, but the model derives both from one list of files. So a dangling `<stem>.json` symlink
  is not modelled. The scan lists it while `open` raises `FileNotFoundError`, and then the
  message would list the language itself. `Loader.LoadMissingFile`'s "does not list the
  language" holds only without such links.
- `Decode.DecodeClass`, `Decode.DecodeGroup`, `Decode.DecodeDivision` and `Decode.DecodeSection`
  treat a code or description that is not a JSON string as a failure. `isic4kit/models.py`
  (`ISICSection` and the other model classes) is not part of this model. Whether those classes
  reject, convert or keep a non-string value is unknown.
- Every malformed-record failure (`KeyError`, `TypeError`) is one generic outcome,
  `DatasetMalformed`, without a message. Python's own messages are not modelled.
- JSON numbers are integers in the model. The loader never looks inside them.
- The model classes' equality, `__repr__` and `print_tree` are not modelled. The taxonomy is
  plain datatypes with structural equality.
- `isic4kit/core.py` is not part of this model. That covers language validation and lower-casing,
  `supported_languages`, `case_sensitive`, the `get_*` lookups and `search`, as well as the
  `"Invalid language specified"` message that `tests/test_core.py` expects from it.
- The dataset invariants (a group's code starts with its division's code, and so on) are
  properties of the shipped data files, not of the loader. The loader does not check them, so
  they are not modelled.
- `tests/test_models.py` (image and study models) and `example.py` (console output) are outside
  the loader.
