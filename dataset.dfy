/**
 * `ImageNetDataset.__init__` and `_get_len`: the phase check, the loaded tables and the
 * dataset length, held immutably afterwards.
 */
module Dataset {
  import opened Outcomes
  import opened SortKeys
  import opened Annotations

  datatype Phase = Train | Val

  /** Number of images in every validation folder, as the loader takes for granted. */
  const ValFolderSize: nat := 50

  /** The largest training folder, the divisor of the first approximation. */
  const TrainMaxFolderSize: nat := 1300

  /** Why `__init__` raises. */
  datatype OpenError =
    | InvalidPhase                 // `assert phase in ("train", "val")`
    | LoadFailed(cause: LoadError) // `_load_annotations` raised
    | MissingStats(folder: string) // `_get_len`: a listed folder has no `folder_stats` entry (KeyError)
    | NoTrainFolders               // `_get_len`: `reduce` of an empty list (TypeError)

  /** The attributes `__init__` sets; none of them changes afterwards. */
  datatype Dataset = Dataset(
    phase: Phase,
    classToLabel: map<string, string>,
    folderStats: map<string, FolderStats>,
    folderNames: seq<string>,
    length: nat)

  /** `assert phase in ("train", "val")`. */
  function ParsePhase(name: string): (r: Option<Phase>)
    ensures name == "train" ==> r == Some(Train)
    ensures name == "val" ==> r == Some(Val)
    ensures r.Some? <==> name == "train" || name == "val"
  {
    if name == "train" then Some(Train) else if name == "val" then Some(Val) else None
  }

  // ---------------------------------------------------------------- folder lengths

  /** Every listed folder has a `folder_stats` entry. */
  predicate Indexed(stats: map<string, FolderStats>, names: seq<string>)
  {
    forall f :: f in names ==> f in stats
  }

  /** `folder_stats[names[i]]["len"]`. */
  function Len(stats: map<string, FolderStats>, names: seq<string>, i: nat): nat
    requires Indexed(stats, names) && i < |names|
  {
    stats[names[i]].len
  }

  /** The number of images in the first `k` listed folders. */
  function Prefix(stats: map<string, FolderStats>, names: seq<string>, k: nat): nat
    requires Indexed(stats, names) && k <= |names|
  {
    if k == 0 then 0 else Prefix(stats, names, k - 1) + Len(stats, names, k - 1)
  }

  lemma {:induction false} PrefixMonotone(stats: map<string, FolderStats>, names: seq<string>, j: nat, k: nat)
    requires Indexed(stats, names) && j <= k <= |names|
    ensures Prefix(stats, names, j) <= Prefix(stats, names, k)
    decreases k - j
  {
    if j < k {
      PrefixMonotone(stats, names, j, k - 1);
    }
  }

  /** The first listed folder without a `folder_stats` entry: where the list comprehension raises. */
  function FirstMissing(stats: map<string, FolderStats>, names: seq<string>): (r: Option<string>)
    ensures r.None? <==> Indexed(stats, names)
    ensures r.Some? ==> r.value in names && r.value !in stats
    ensures r.Some? ==> exists i :: 0 <= i < |names| && names[i] == r.value && forall j :: 0 <= j < i ==> names[j] in stats
  {
    if |names| == 0 then None
    else if names[0] !in stats then Some(names[0])
    else
      var r := FirstMissing(stats, names[1..]);
      assert names == [names[0]] + names[1..];
      assert r.Some? ==> exists i :: 0 <= i < |names| && names[i] == r.value && forall j :: 0 <= j < i ==> names[j] in stats by {
        if r.Some? {
          var i :| 0 <= i < |names[1..]| && names[1..][i] == r.value && forall j :: 0 <= j < i ==> names[1..][j] in stats;
          assert names[i + 1] == r.value;
          assert forall j :: 0 <= j < i + 1 ==> names[j] in stats by {
            forall j | 0 <= j < i + 1 ensures names[j] in stats {
              if j > 0 { assert names[j] == names[1..][j - 1]; }
            }
          }
        }
      }
      r
  }

  /** `[folder_stats[folder]["len"] for folder in folder_names]`. */
  function Lens(stats: map<string, FolderStats>, names: seq<string>): (r: seq<nat>)
    requires Indexed(stats, names)
    ensures |r| == |names| && forall i :: 0 <= i < |names| ==> r[i] == Len(stats, names, i)
  {
    seq(|names|, i requires 0 <= i < |names| => Len(stats, names, i))
  }

  /** `functools.reduce(lambda x, y: x + y, xs)` for a nonempty `xs`: a left fold from `xs[0]`. */
  function Reduce(xs: seq<nat>): nat
    requires |xs| > 0
  {
    FoldSum(xs[0], xs[1..])
  }

  function FoldSum(acc: nat, xs: seq<nat>): nat
    decreases |xs|
  {
    if |xs| == 0 then acc else FoldSum(acc + xs[0], xs[1..])
  }

  /** Folding the lengths of folders `k..` onto the first `k` folders' total gives the grand total. */
  lemma {:induction false} FoldSumLens(stats: map<string, FolderStats>, names: seq<string>, k: nat)
    requires Indexed(stats, names) && k <= |names|
    ensures FoldSum(Prefix(stats, names, k), Lens(stats, names)[k..]) == Prefix(stats, names, |names|)
    decreases |names| - k
  {
    var xs := Lens(stats, names)[k..];
    if k < |names| {
      assert xs[0] == Len(stats, names, k);
      assert xs[1..] == Lens(stats, names)[k + 1..];
      FoldSumLens(stats, names, k + 1);
    }
  }

  /**
   * `_get_len`: 50 per annotated folder in the val phase; in the train phase the total of the
   * listed folders' lengths, which raises when a listed folder has no entry or none is listed.
   */
  function GetLen(phase: Phase, stats: map<string, FolderStats>, names: seq<string>): (r: Result<nat, OpenError>)
    ensures phase == Val ==> r == Ok(ValFolderSize * |stats|)
    ensures phase == Train ==> (r.Ok? <==> |names| > 0 && Indexed(stats, names))
    ensures phase == Train && r.Ok? ==> r.value == Prefix(stats, names, |names|)
  {
    match phase
    case Val => Ok(ValFolderSize * |stats|)
    case Train =>
      match FirstMissing(stats, names)
      case Some(f) => Err(MissingStats(f))
      case None =>
        if |names| == 0 then Err(NoTrainFolders)
        else
          FoldSumLens(stats, names, 1);
          assert Lens(stats, names)[0] == Prefix(stats, names, 1);
          Ok(Reduce(Lens(stats, names)))
  }

  // ---------------------------------------------------------------- __init__

  /** `__init__` as one function of its inputs. */
  function Opened(phaseName: string, phaseListing: seq<string>, lines: seq<string>,
                  listings: map<string, seq<string>>): Result<Dataset, OpenError>
  {
    match ParsePhase(phaseName)
    case None => Err(InvalidPhase)
    case Some(phase) =>
      match Annotate(phaseListing, lines, listings)
      case Err(e) => Err(LoadFailed(e))
      case Ok(loaded) =>
        match GetLen(phase, loaded.folderStats, loaded.folderNames)
        case Err(e) => Err(e)
        case Ok(n) => Ok(Dataset(phase, loaded.classToLabel, loaded.folderStats, loaded.folderNames, n))
  }

  /** `ImageNetDataset(root_dir, phase)`: check the phase, load the tables, compute the length. */
  method Open(phaseName: string, phaseListing: seq<string>, lines: seq<string>,
              listings: map<string, seq<string>>) returns (r: Result<Dataset, OpenError>)
    ensures r == Opened(phaseName, phaseListing, lines, listings)
  {
    var phase := ParsePhase(phaseName);
    if phase.None? {
      return Err(InvalidPhase);
    }
    var loaded := LoadAnnotations(phaseListing, lines, listings);
    if loaded.Err? {
      return Err(LoadFailed(loaded.error));
    }
    var length := GetLen(phase.value, loaded.value.folderStats, loaded.value.folderNames);
    if length.Err? {
      return Err(length.error);
    }
    return Ok(Dataset(phase.value, loaded.value.classToLabel, loaded.value.folderStats,
                      loaded.value.folderNames, length.value));
  }

  /** Every entry's `len` is the size of its `images` list. */
  predicate WellFormed(ds: Dataset)
  {
    forall f :: f in ds.folderStats ==> ds.folderStats[f].len == |ds.folderStats[f].images|
  }

  /**
   * What a successfully opened dataset holds: the folder names are the phase listing sorted by
   * folder number; the annotated folders are exactly those the file names, and each one's
   * entry lists that folder's images sorted by image number, with `len` their count and `id`
   * the parsed class id of a line naming the folder; the labels are keyed by exactly the id
   * tokens, each with the label of the last line carrying it;
   * the length is 50 per annotated folder (val) or the total over the listed folders, every
   * one of which is annotated (train).
   */
  lemma OpenedDataset(phaseName: string, phaseListing: seq<string>, lines: seq<string>,
                      listings: map<string, seq<string>>)
    requires Opened(phaseName, phaseListing, lines, listings).Ok?
    ensures var ds := Opened(phaseName, phaseListing, lines, listings).value;
      && multiset(ds.folderNames) == multiset(phaseListing)
      && SortedBy(ByFolderNumber, ds.folderNames)
      && WellFormed(ds)
      && AllParse(lines)
      && (forall f :: f in ds.folderStats <==> f in Folders(lines))
      && (forall f :: f in ds.folderStats ==> EntryFromFile(ds.folderStats[f], f, lines, listings))
      && (forall id :: id in ds.classToLabel <==> id in Ids(lines))
      && (forall i :: 0 <= i < |lines| && LastForId(lines, i) ==> ds.classToLabel[IdOf(lines[i])] == LabelOf(lines[i]))
      && (ds.phase == Val ==> ds.length == ValFolderSize * |ds.folderStats|)
      && (ds.phase == Train ==> |ds.folderNames| > 0 && Indexed(ds.folderStats, ds.folderNames)
                                && ds.length == Prefix(ds.folderStats, ds.folderNames, |ds.folderNames|))
  {
    var ds := Opened(phaseName, phaseListing, lines, listings).value;
    LoadedEntries(lines, listings);
    LoadedFolderStats(lines, listings);
    LoadedLabels(lines, listings);
    assert ds.folderStats == LoadLines(lines, listings).value.folderStats;
  }
}
