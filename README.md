# ImageNet dataset index arithmetic, modelled in Dafny

This project models the index arithmetic at the heart of `ImageNetDataset` in
`src/dataset.py`. The class resolves one flat global index into a
(folder, image name, class id) triple over a two-level layout: one folder per class,
images inside. The tables it resolves against are built once, when the dataset is opened.

- **Loading** (`_load_annotations`). The phase directory's folder names are sorted by the
  number after their leading letter (`int(name[1:])`). Then each line of `labels.txt` is
  split into exactly three tokens `folder id label`. Two dictionaries are filled in place:
  `classid_to_label[id] = label` and
  `folder_stats[folder] = {id: int(id), len: len(listing), images: listing sorted by image number}`.
  The image number is `int(name.replace('.', '_').split('_')[1])`.
- **Length** (`_get_len`). In the val phase it is 50 per annotated folder. In the train phase
  it is the `reduce` sum of the listed folders' `len`.
- **Resolution** (`_calculate_image_folder_and_name`). The val phase uses the folder
  `folder_names[g // 50]` at local index `g % 50`. The train phase first guesses
  `folder_i = g // 1300` with offset `1300 * folder_i`. A `while` loop then moves forward
  while the current folder ends at or before `g`.
- **Class id** (`__getitem__`). The class id is `folder_stats[folder]["id"]`.

Directory listings and the lines of `labels.txt` are inputs: `phaseListing` is
`listdir(root/phase)`, and `listings` maps each folder that exists under `root/phase` to its
`listdir`. A folder missing from that map is the `FileNotFoundError` path.

Modules:
- `Outcomes` holds `Option` and `Result`.
- `Text` holds the Python string builtins involved. It models `int()` on digit strings,
  `str.split()`, `str.split(sep)` and `str.replace`.
- `SortKeys` holds the two sort keys and `sorted`.
- `Annotations` models `_load_annotations`. It is a method with a loop, specified by a fold
  over the lines.
- `Dataset` models the phase check, `_get_len` and `__init__`.
- `Resolver` models resolution and `__getitem__`'s lookup.
- `ResolverExamples` holds worked cases.

Points where the code behaves differently from what one might expect:
- The val length counts annotated folders (`folder_stats`), but lookup indexes the listed
  folders (`folder_names`). Nothing checks that the two agree or that a val folder has 50
  images. Those facts are hypotheses of `ValInBounds` and `ValIsExact`; the val lookups do not
  need them.
- The code has no range check on the index. The model requires `0 <= g < length`; the index
  type `nat` excludes negative indices.
- The guessed train folder `g // 1300` never lies past the true folder, but the guessed offset
  `1300 * folder_i` overshoots the images really in the earlier folders when one of them has
  fewer than 1300. The scan then stops early, at or before the true folder
  (`TrainNotPastExact`). See Findings.
- `classid_to_label` is keyed by the id token as a string, not by the number.
- In the val phase a listed folder without an annotation line is not detected when the dataset
  is opened. Indices that fall into it raise `KeyError` at lookup (`MissingEntry`), while the
  others still resolve; `ValMissingEntry` shows both. In the train phase such a folder raises
  `KeyError` in `_get_len`, so an opened train dataset has none.
- The image key is the second `_`-separated piece after dots become underscores, so a name such
  as `a__1.JPEG` or `a_1x.JPEG` has no key and makes the loader raise.

## Model

| member | source | states |
|---|---|---|
| `Text.ParseNat` | src/dataset.py:82 | `int(s)` succeeds exactly on nonempty ASCII digit strings |
| `Text.ParseShowNat` | src/dataset.py:73 | parsing the decimal spelling of `n` gives back `n` |
| `Text.LeadingZeroIgnored` | src/dataset.py:73 | a leading `0` does not change the parsed value, so zero-padded synset numbers parse to their value |
| `Text.Words` | src/dataset.py:79 | `line.strip().split()` yields only nonempty, whitespace-free tokens |
| `Text.WordsUnwords` | src/dataset.py:79 | splitting words joined by single spaces gives back exactly those words |
| `Text.WordsTrailingSpace` | src/dataset.py:78-79 | the newline that ends a file line adds no token |
| `Text.Split` | src/dataset.py:85 | `split('_')` yields at least one piece, and no piece contains the separator |
| `Text.JoinSplit` | src/dataset.py:85 | joining the pieces of a split with the separator gives back the string |
| `Text.SplitJoin` | src/dataset.py:85 | splitting separator-free pieces joined by the separator gives back the pieces |
| `Text.Replace` | src/dataset.py:85 | `replace('.', '_')` keeps the length; its effect at each position is stated by `ReplaceAt` |
| `Text.ReplaceAt` | src/dataset.py:85 | `replace('.', '_')` turns every dot into `_` and leaves every other character in place |
| `SortKeys.FolderKey` | src/dataset.py:73 | the folder key exists exactly when the name has a digit-only suffix after its first character |
| `SortKeys.FolderKeyOf` | src/dataset.py:73 | a letter followed by the spelling of `n`, with any number of leading zeros, has key `n` |
| `SortKeys.FolderKeyExample` | src/dataset.py:73 | `n01440764` has key 1440764 |
| `SortKeys.ImageKey` | src/dataset.py:85 | an image key exists only for names containing `_` or `.`; its value is fixed by `ImageKeyOf` and `ImageKeyHasShape` |
| `SortKeys.ImageKeyOf` | src/dataset.py:85 | for a separator-free stem, a separator, digits, then nothing or a separator-led rest, the key is the digits' value |
| `SortKeys.ImageKeyHasShape` | src/dataset.py:85 | conversely, a name with a key is a separator-free stem, a separator, nonempty digits and nothing or a separator-led rest, and the key is the digits' value; any other name that contains a separator, such as `a__1.JPEG` or `a_1x.JPEG`, is the `ValueError` path |
| `SortKeys.ImageKeyExample` | src/dataset.py:85 | `n01440764_10026.JPEG` has key 10026 |
| `SortKeys.ImageKeyNeedsSeparator` | src/dataset.py:85 | a name with no `_` or `.` has no key, the `IndexError` of `split('_')[1]` |
| `SortKeys.InsertionSort` | src/dataset.py:72-73 | the sort behind `sorted`: returns a permutation of its input in ascending key order |
| `SortKeys.SortByKey` | src/dataset.py:72-73 | `sorted(xs, key=...)` fails exactly when some element has no key; otherwise it returns a permutation of `xs` in ascending key order |
| `SortKeys.NumericFolderOrder` | src/dataset.py:72-73 | folders sort by number, so `n9` comes before `n10` |
| `Annotations.ParseLine` | src/dataset.py:79 | the three-way unpacking succeeds exactly when the line has three tokens, each a word |
| `Annotations.ParseLineOf` | src/dataset.py:79 | `folder id label`, with or without its newline, parses to those three tokens |
| `Annotations.ParseLineExample` | src/dataset.py:79 | the first ImageNet label line parses to (`n01440764`, `0`, `tench`) |
| `Annotations.EntryOf` | src/dataset.py:82-85 | an entry's images are the folder listing reordered by ascending image key; `len` is the listing size; `id` is `int(id_)` |
| `Annotations.LoadLine` | src/dataset.py:79-85 | one loop iteration succeeds exactly when the line is valid, and then writes the label at the id token and the entry at the folder |
| `Annotations.LoadLines` | src/dataset.py:78-85 | the `for` loop over the lines as a fold over prefixes; specified by `LoadLinesOk`, `LoadLinesErrorPersists` and `LoadedAsWrites` |
| `Annotations.LoadLinesErrorPersists` | src/dataset.py:78-85 | the first line that raises ends the load with its error |
| `Annotations.LoadLinesOk` | src/dataset.py:78-85 | the label file loads exactly when every line is valid |
| `Annotations.LoadedAsWrites` | src/dataset.py:78-85 | a successful load equals the in-order sequence of dictionary writes the lines describe |
| `Annotations.LoadedFolderStats` | src/dataset.py:81-85 | `folder_stats` has a key for each folder named in the file and no other; each entry comes from the last line naming that folder |
| `Annotations.LoadedLabels` | src/dataset.py:80 | `classid_to_label` has a key for each id token and no other, mapped to the label of the last line with that id |
| `Annotations.LoadedEntries` | src/dataset.py:81-85 | every `folder_stats` entry is the folder's listing sorted by image key, with `len` its size and `id` parsed from a line naming the folder |
| `Annotations.Annotate` | src/dataset.py:72-87 | `_load_annotations` succeeds exactly when every folder name has a key and every line is valid; the folder names are then the listing sorted by folder key, and `classid_to_label` and `folder_stats` are the two tables the line loop builds |
| `Annotations.LoadAnnotations` | src/dataset.py:55-87 | the loop that fills both dictionaries line by line computes `Annotate` |
| `Dataset.ParsePhase` | src/dataset.py:46 | `train` gives the train phase, `val` the val phase, and every other name is rejected |
| `Dataset.FirstMissing` | src/dataset.py:105 | the list comprehension raises `KeyError` exactly when a listed folder has no entry, and it names the first such folder in listing order |
| `Dataset.Lens` | src/dataset.py:105 | the comprehension lists the `len` of each listed folder, in order |
| `Dataset.Reduce` | src/dataset.py:105 | `reduce(lambda x, y: x + y, xs)` on a nonempty list: a left fold from the first element; specified by `FoldSumLens` |
| `Dataset.FoldSum` | src/dataset.py:105 | the left fold inside `reduce`; specified by `FoldSumLens` |
| `Dataset.FoldSumLens` | src/dataset.py:105 | folding `+` over the lengths from left to right gives the total over all listed folders |
| `Dataset.GetLen` | src/dataset.py:102-105 | val gives 50 × the number of annotated folders; train gives the sum of `len` over `folder_names`, and fails when a name has no entry or no folder is listed |
| `Dataset.Opened` | src/dataset.py:28-53 | the constructor as one function of its inputs; specified by `OpenedDataset` |
| `Dataset.Open` | src/dataset.py:28-53 | the constructor computes the phase check, the loader and the length, and fails when any of them fails |
| `Dataset.OpenedDataset` | src/dataset.py:52-53 | an opened dataset has sorted folder names that permute the listing; `folder_stats` has a key for exactly the folders named in the file, and every entry has `len == len(images)`, sorted images and a parsed class id; `classid_to_label` has a key for exactly the id tokens, each mapped to the label of the last line with that id; its length follows `_get_len`; in train every listed folder is annotated |
| `Resolver.Lookup` | src/dataset.py:178-181 | the folder and image lookup succeeds exactly when the position is in range, that folder has a `folder_stats` entry and the local index is in range, and then returns `folder_names[position]` and that folder's `images[local]`; otherwise it reports the first check that fails: position (`IndexError`), missing entry (`KeyError`) or local index (`IndexError`) |
| `Resolver.ResolveVal` | src/dataset.py:167-170 | a val result has local index below 50 and satisfies `50 × position + local == g` |
| `Resolver.ValBlock` | src/dataset.py:169-170 | index `50k + j`, with `j < 50`, whenever it resolves, resolves to folder position `k` at local index `j` |
| `Resolver.ValInBounds` | src/dataset.py:169-170 | with every listed folder annotated, at least as many listed folders as annotated ones, and each holding at least 50 images, every index below the length resolves |
| `Resolver.ValIsExact` | src/dataset.py:167-170 | when every listed val folder has exactly 50 images, the div/mod rule equals the exact prefix-sum resolution |
| `Resolver.Scan` | src/dataset.py:175-177 | the `while` loop of the train branch as a recursive scan; specified by `ScanFinds` |
| `Resolver.ScanFinds` | src/dataset.py:175-179 | the forward scan stops at the first folder whose end exceeds `g`, with `g` equal to its offset plus the local index; it fails exactly when no folder remains |
| `Resolver.ScanFromBoundary` | src/dataset.py:172-177 | a scan that starts at a true folder boundary continues as a scan from folder 0 |
| `Resolver.TrainResolution` | src/dataset.py:171-181 | the train branch as written, a first guess then the scan; specified by `TrainInBounds`, `TrainExactWhenFull`, `TrainDecompositionBelowMax` and `UnevenSkipsLastImages` |
| `Resolver.ResolveTrain` | src/dataset.py:171-181 | the `while` loop, keeping `sum_ <= g` and decreasing `len(folder_names) - folder_i`, computes the train resolution |
| `Resolver.PrefixAtMostMax` | src/dataset.py:172 | with every folder at most 1300 images, the first `k` folders hold at most `1300k` images |
| `Resolver.TrainInBounds` | src/dataset.py:172-181 | with folders of at most 1300 images and `len == len(images)`, every index below the total resolves to a listed folder at a local index below that folder's length |
| `Resolver.TrainNotPastExact` | src/dataset.py:172-179 | with folders of at most 1300 images and `len == len(images)`, the train result lies at or after the guess `g // 1300` and at or before the exact resolution's folder |
| `Resolver.TrainExactWhenFull` | src/dataset.py:172-173 | when the folders before `g // 1300` hold exactly 1300 images each, the train resolution is the exact one |
| `Resolver.TrainDecompositionBelowMax` | src/dataset.py:172-179 | for `g < 1300`, `g` equals the images in the folders before the result plus the local index |
| `Resolver.ExactResolution` | src/dataset.py:171-181 | the corrected train resolution, a scan from folder 0 with offset 0; specified by `ExactDecomposition` and `ExactMonotone` |
| `Resolver.ExactDecomposition` | src/dataset.py:172-179 | given `len == len(images)` for every entry, the exact resolution resolves every index below the total; whenever it resolves, it is to the unique position `p` with `Before(p) <= g < Before(p+1)`, at local index `g - Before(p)` |
| `Resolver.ExactMonotone` | src/dataset.py:172-179 | the exact resolution's folder position never decreases as the index grows |
| `Resolver.Resolution` | src/dataset.py:167-181 | `_calculate_image_folder_and_name`: the val rule or the train rule by phase (the train rule for datasets whose listed folders all have entries); specified through `GetItem` |
| `Resolver.GetItem` | src/dataset.py:137-148 | `__getitem__` fails exactly when resolution fails, with the same error; otherwise it returns the resolved folder and image, and as class id that folder's `folder_stats` id |
| `ResolverExamples.SmallTrainResolves` | src/dataset.py:171-181 | with folders of 2 and 3 images the length is 5; indices 0, 1, 2 and 4 resolve to n01's 1st and 2nd image and n02's 1st and 3rd |
| `ResolverExamples.TrainNotMonotone` | src/dataset.py:172-179 | with folders of 1, 1, 1 and 1300 images, index 2 resolves to position 2 but index 1300 to position 1, the same image as index 1 |
| `ResolverExamples.ValMissingEntry` | src/dataset.py:169-181 | a val dataset listing n1 and n2 with only n1 annotated has length 50; with n1 listed first every index below 50 resolves into n1, with n2 listed first every one fails with the `KeyError` of n2 |
| `ResolverExamples.UnevenSkipsLastImages` | src/dataset.py:172-179 | with the same folders, no index below the length resolves to local index 1297, 1298 or 1299 of the last folder |

## Findings

| source | as written | input that shows it | evidently intended | confidence | as-written member | corrected member |
|---|---|---|---|---|---|---|
| src/dataset.py:172-173 | the train offset of the first guess is `1300 * (g // 1300)`, which is the true offset only when every earlier folder holds exactly 1300 images | folders of 1, 1, 1 and 1300 images (each within the 1300 bound), `g = 1300`: resolves to folder position 1, local 0, the image index 1 also gives; the exact answer is position 3, local 1297; index 2 resolves to position 2, so positions are not monotone; and no index reaches local indices 1297..1299 of the last folder | each index maps to the folder whose cumulative range contains it (offset = images in the earlier folders), monotone in the index | high (proved about the model; not executed) | `ResolverExamples.TrainNotMonotone` | `Resolver.ExactMonotone` |

`ResolverExamples.UnevenSkipsLastImages` proves, for the same input, that the last three images
of the last folder are never reached.
`Resolver.ExactResolution` is the corrected definition. It scans from folder 0 with offset 0.
`Resolver.ExactDecomposition` proves it decomposes every index below the total correctly, and
`Resolver.ExactMonotone` proves it monotone. `Resolver.TrainExactWhenFull` proves the code as
written agrees with it when the folders before the guess are full. `Resolver.ValIsExact` proves
the val rule agrees with it when every folder has 50 images.
`Resolver.GetItem` keeps the behaviour as written, since it models what `__getitem__` does.

## Left out

- Image decoding with PIL, the `uint8` array and the grayscale-to-3-channel stacking
  (src/dataset.py:139-142) are left out: they are pixel work in foreign libraries.
  `Item` carries the file's folder and name instead of the pixels.
- Applying `self.transforms` (src/dataset.py:144-145) is left out: it is an opaque,
  user-supplied callable.
- `listdir`, `path.join` and opening `labels.txt` are left out as I/O. They are replaced by
  the inputs `phaseListing`, `listings` and `lines`.
- The torch `Dataset` base class and the batching protocol are left out: they are an external
  framework. `__len__` is the `length` field.
- Python `int()` is modelled only on nonempty ASCII digit strings. Signs, surrounding
  whitespace, underscores and non-ASCII digits count as parse failures.
- `SortKeys.SortByKey`: does not state that Python's sort is stable (equal keys keep their
  listing order). The insertion sort used is stable, but no contract says so.
- Which exception class is raised is not modelled, only which condition raises. Different
  Python exceptions (`ValueError`, `IndexError`, `KeyError`, `TypeError`,
  `FileNotFoundError`, `AssertionError`) map to the cases of `LoadError`, `OpenError` and
  `LookupError`.
- `Resolver.GetItem`: in the train phase requires every listed folder to have a `folder_stats`
  entry (`Listed`), and so does `Resolver.Resolution`. Opening a train dataset guarantees
  this, because `_get_len` raises `KeyError` otherwise (`Dataset.OpenedDataset`), so the
  `KeyError` the train loop would raise on such a folder is not modelled. The val phase has no
  such requirement.
- Negative and out-of-range indices are left out. The code does not check the index range;
  the model requires `0 <= g < length`, and the type `nat` excludes Python's negative-index
  wrap-around.
- `Dataset.ParsePhase`: models `assert phase in ("train", "val")` with assertions enabled.
  Under `python -O` the assert is removed; an invalid phase then opens, and `_get_len` returns
  `None`. That behaviour is not modelled.
- Concurrency is left out: there is none. Everything after construction is a read-only lookup.
