/**
 * `ImageNetDataset._load_annotations`: sort the phase directory's folder names, then read
 * `labels.txt` line by line, filling `classid_to_label` and `folder_stats`.
 * Directory listings are inputs: `phaseListing` is `listdir(root/phase)` and `listings`
 * maps each folder name that exists under `root/phase` to its `listdir`.
 */
module Annotations {
  import opened Outcomes
  import opened Text
  import opened SortKeys

  /** A `folder_stats` entry: `{"id": int(id_), "len": len(list_dir), "images": sorted(list_dir, ...)}`. */
  datatype FolderStats = FolderStats(id: nat, len: nat, images: seq<string>)

  /** Why `_load_annotations` raises. */
  datatype LoadError =
    | MalformedFolderName                   // a folder name's `int(name[1:])` failed
    | MalformedAnnotationLine(line: string) // the line does not split into exactly three tokens
    | MissingFolder(folder: string)         // `listdir(root/phase/folder)`: no such directory
    | MalformedClassId(id: string)          // `int(id_)` failed
    | MalformedImageName(folder: string)    // an image name in the folder has no key

  /** `classid_to_label` and `folder_stats` as the loop builds them. */
  datatype Tables = Tables(classToLabel: map<string, string>, folderStats: map<string, FolderStats>)

  /** The triple `_load_annotations` returns. */
  datatype Loaded = Loaded(classToLabel: map<string, string>, folderStats: map<string, FolderStats>,
                           folderNames: seq<string>)

  // ---------------------------------------------------------------- one line

  /** `folder_name, id_, label_name = line.strip().split()`: exactly three tokens or nothing. */
  function ParseLine(line: string): (r: Option<(string, string, string)>)
    ensures r.Some? <==> |Words(line)| == 3
    ensures r.Some? ==> IsWord(r.value.0) && IsWord(r.value.1) && IsWord(r.value.2)
  {
    var ws := Words(line);
    if |ws| == 3 then Some((ws[0], ws[1], ws[2])) else None
  }

  /**
   * A line written as `folder id label`, with or without the newline it has in the file,
   * parses back to those three tokens.
   */
  lemma ParseLineOf(folder: string, id: string, labelName: string)
    requires IsWord(folder) && IsWord(id) && IsWord(labelName)
    ensures ParseLine(folder + " " + id + " " + labelName) == Some((folder, id, labelName))
    ensures ParseLine(folder + " " + id + " " + labelName + "\n") == Some((folder, id, labelName))
  {
    WordsTrailingSpace(folder + " " + id + " " + labelName, '\n');
    var ws := [folder, id, labelName];
    WordsUnwords(ws);
    assert Unwords(ws[2..]) == labelName;
    assert Unwords(ws[1..]) == id + " " + labelName;
    assert Unwords(ws) == folder + " " + id + " " + labelName;
  }

  /** The first line of ImageNet's label file. */
  lemma ParseLineExample()
    ensures ParseLine("n01440764 0 tench\n") == Some(("n01440764", "0", "tench"))
  {
    ParseLineOf("n01440764", "0", "tench");
    assert "n01440764" + " " + "0" + " " + "tench" + "\n" == "n01440764 0 tench\n";
  }

  function FolderOf(line: string): string requires ParseLine(line).Some? { ParseLine(line).value.0 }
  function IdOf(line: string): string requires ParseLine(line).Some? { ParseLine(line).value.1 }
  function LabelOf(line: string): string requires ParseLine(line).Some? { ParseLine(line).value.2 }

  /** Everything a line needs for the loop body to get through it without raising. */
  predicate LineValid(line: string, listings: map<string, seq<string>>)
  {
    && ParseLine(line).Some?
    && FolderOf(line) in listings
    && ParseNat(IdOf(line)).Some?
    && AllKeyed(ByImageNumber, listings[FolderOf(line)])
  }

  /**
   * The `folder_stats` entry a valid line produces: its images are the folder's listing
   * reordered into ascending image-key order, and its `len` is the listing's size.
   */
  function EntryOf(line: string, listings: map<string, seq<string>>): (e: FolderStats)
    requires LineValid(line, listings)
    ensures e.len == |listings[FolderOf(line)]| == |e.images|
    ensures multiset(e.images) == multiset(listings[FolderOf(line)])
    ensures SortedBy(ByImageNumber, e.images)
    ensures Some(e.id) == ParseNat(IdOf(line))
  {
    var listing := listings[FolderOf(line)];
    FolderStats(ParseNat(IdOf(line)).value, |listing|, SortByKey(ByImageNumber, listing).value)
  }

  /** The loop body for one line, in the order Python evaluates it. */
  function LoadLine(t: Tables, line: string, listings: map<string, seq<string>>): (r: Result<Tables, LoadError>)
    ensures r.Ok? <==> LineValid(line, listings)
    ensures r.Ok? ==> r.value == Tables(t.classToLabel[IdOf(line):= LabelOf(line)],
                                        t.folderStats[FolderOf(line) := EntryOf(line, listings)])
  {
    match ParseLine(line)
    case None => Err(MalformedAnnotationLine(line))
    case Some((folder, id, labelName)) =>
      var labels := t.classToLabel[id := labelName];
      if folder !in listings then Err(MissingFolder(folder))
      else match ParseNat(id)
        case None => Err(MalformedClassId(id))
        case Some(classId) =>
          match SortByKey(ByImageNumber, listings[folder])
          case None => Err(MalformedImageName(folder))
          case Some(images) =>
            Ok(Tables(labels, t.folderStats[folder := FolderStats(classId, |listings[folder]|, images)]))
  }

  // ---------------------------------------------------------------- all lines

  /** The loop over `labels.txt`: the first line that raises ends it. */
  function LoadLines(lines: seq<string>, listings: map<string, seq<string>>): Result<Tables, LoadError>
    decreases |lines|
  {
    if |lines| == 0 then Ok(Tables(map[], map[]))
    else
      match LoadLines(lines[..|lines| - 1], listings)
      case Err(e) => Err(e)
      case Ok(t) => LoadLine(t, lines[|lines| - 1], listings)
  }

  /** Once a prefix of the lines raises, the whole file raises with the same error. */
  lemma {:induction false} LoadLinesErrorPersists(lines: seq<string>, listings: map<string, seq<string>>, k: nat)
    requires k <= |lines| && LoadLines(lines[..k], listings).Err?
    ensures LoadLines(lines, listings) == LoadLines(lines[..k], listings)
    decreases |lines| - k
  {
    if k < |lines| {
      var next := lines[..k + 1];
      assert next[..k] == lines[..k];
      LoadLinesErrorPersists(lines, listings, k + 1);
    } else {
      assert lines[..k] == lines;
    }
  }

  /** The file loads exactly when every line is valid. */
  lemma {:induction false} LoadLinesOk(lines: seq<string>, listings: map<string, seq<string>>)
    ensures LoadLines(lines, listings).Ok? <==> forall i :: 0 <= i < |lines| ==> LineValid(lines[i], listings)
  {
    LoadLinesValid(lines, listings);
    AllValidEach(lines, listings);
  }

  /** Every line valid, stated by the same prefix recursion as `LoadLines`. */
  predicate AllValid(lines: seq<string>, listings: map<string, seq<string>>)
    decreases |lines|
  {
    |lines| == 0 || (AllValid(lines[..|lines| - 1], listings) && LineValid(lines[|lines| - 1], listings))
  }

  lemma {:induction false} LoadLinesValid(lines: seq<string>, listings: map<string, seq<string>>)
    ensures LoadLines(lines, listings).Ok? <==> AllValid(lines, listings)
    decreases |lines|
  {
    if |lines| > 0 {
      LoadLinesValid(lines[..|lines| - 1], listings);
      LoadLinesStep(lines, listings);
    }
  }

  lemma {:induction false} AllValidEach(lines: seq<string>, listings: map<string, seq<string>>)
    ensures AllValid(lines, listings) <==> forall i :: 0 <= i < |lines| ==> LineValid(lines[i], listings)
    decreases |lines|
  {
    if |lines| > 0 {
      var n := |lines| - 1;
      var init := lines[..n];
      AllValidEach(init, listings);
      assert forall i :: 0 <= i < n ==> init[i] == lines[i];
    }
  }

  /** The last line is loaded exactly when the lines before it loaded and it is valid. */
  lemma LoadLinesStep(lines: seq<string>, listings: map<string, seq<string>>)
    requires |lines| > 0
    ensures LoadLines(lines, listings).Ok?
        <==> LoadLines(lines[..|lines| - 1], listings).Ok? && LineValid(lines[|lines| - 1], listings)
  {
  }

  /** Every line splits into three tokens. */
  predicate AllParse(lines: seq<string>)
  {
    forall j :: 0 <= j < |lines| ==> ParseLine(lines[j]).Some?
  }

  /** No later line names the same folder as line `i`. */
  ghost predicate LastForFolder(lines: seq<string>, i: int)
    requires 0 <= i < |lines| && AllParse(lines)
  {
    forall j :: i < j < |lines| ==> FolderOf(lines[j]) != FolderOf(lines[i])
  }

  /** No later line names the same class id as line `i`. */
  ghost predicate LastForId(lines: seq<string>, i: int)
    requires 0 <= i < |lines| && AllParse(lines)
  {
    forall j :: i < j < |lines| ==> IdOf(lines[j]) != IdOf(lines[i])
  }

  // ---------------------------------------------------------------- what a load builds

  /** The map built by writing `vals[i]` at `keys[i]` for i = 0, 1, ...: later writes win. */
  function Assign<K, V>(keys: seq<K>, vals: seq<V>): map<K, V>
    requires |keys| == |vals|
    decreases |keys|
  {
    if |keys| == 0 then map[]
    else Assign(keys[..|keys| - 1], vals[..|keys| - 1])[keys[|keys| - 1] := vals[|keys| - 1]]
  }

  /** Key `k` is in the map exactly when some write used it. */
  lemma {:induction false} AssignDomain<K, V>(keys: seq<K>, vals: seq<V>, k: K)
    requires |keys| == |vals|
    ensures k in Assign(keys, vals) <==> k in keys
  {
    if |keys| > 0 {
      var n := |keys| - 1;
      AssignDomain(keys[..n], vals[..n], k);
      assert keys == keys[..n] + [keys[n]];
    }
  }

  /** Every value in the map was written at its key by some write. */
  lemma {:induction false} AssignValue<K, V>(keys: seq<K>, vals: seq<V>, k: K)
    requires |keys| == |vals| && k in Assign(keys, vals)
    ensures exists i :: 0 <= i < |keys| && keys[i] == k && Assign(keys, vals)[k] == vals[i]
  {
    var n := |keys| - 1;
    if keys[n] != k {
      AssignValue(keys[..n], vals[..n], k);
    }
  }

  /** The value at a key is the one from the last write to it. */
  lemma {:induction false} AssignLast<K, V>(keys: seq<K>, vals: seq<V>, i: nat)
    requires |keys| == |vals| && i < |keys|
    requires forall j :: i < j < |keys| ==> keys[j] != keys[i]
    ensures keys[i] in Assign(keys, vals) && Assign(keys, vals)[keys[i]] == vals[i]
  {
    var n := |keys| - 1;
    if i < n {
      AssignLast(keys[..n], vals[..n], i);
    }
  }

  /** The folder token of every line. */
  function Folders(lines: seq<string>): (r: seq<string>)
    requires AllParse(lines)
    ensures |r| == |lines| && forall i :: 0 <= i < |lines| ==> r[i] == FolderOf(lines[i])
  {
    seq(|lines|, i requires 0 <= i < |lines| => FolderOf(lines[i]))
  }

  function Ids(lines: seq<string>): (r: seq<string>)
    requires AllParse(lines)
    ensures |r| == |lines| && forall i :: 0 <= i < |lines| ==> r[i] == IdOf(lines[i])
  {
    seq(|lines|, i requires 0 <= i < |lines| => IdOf(lines[i]))
  }

  function Labels(lines: seq<string>): (r: seq<string>)
    requires AllParse(lines)
    ensures |r| == |lines| && forall i :: 0 <= i < |lines| ==> r[i] == LabelOf(lines[i])
  {
    seq(|lines|, i requires 0 <= i < |lines| => LabelOf(lines[i]))
  }

  function Entries(lines: seq<string>, listings: map<string, seq<string>>): (r: seq<FolderStats>)
    requires forall i :: 0 <= i < |lines| ==> LineValid(lines[i], listings)
    ensures |r| == |lines| && forall i :: 0 <= i < |lines| ==> r[i] == EntryOf(lines[i], listings)
  {
    seq(|lines|, i requires 0 <= i < |lines| => EntryOf(lines[i], listings))
  }

  /**
   * A successful load is the sequence of writes the lines describe: `folder_stats[folder] = entry`
   * and `classid_to_label[id] = label`, one line after the other.
   */
  lemma {:induction false} LoadedAsWrites(lines: seq<string>, listings: map<string, seq<string>>)
    requires LoadLines(lines, listings).Ok?
    ensures forall i :: 0 <= i < |lines| ==> LineValid(lines[i], listings)
    ensures AllParse(lines)
    ensures LoadLines(lines, listings).value
         == Tables(Assign(Ids(lines), Labels(lines)), Assign(Folders(lines), Entries(lines, listings)))
  {
    LoadLinesOk(lines, listings);
    if |lines| > 0 {
      var n := |lines| - 1;
      var init := lines[..n];
      LoadLinesStep(lines, listings);
      LoadedAsWrites(init, listings);
      ColumnsOfPrefix(lines, listings, n);
      assert LoadLines(lines, listings) == LoadLine(LoadLines(init, listings).value, lines[n], listings);
    }
  }

  /** The columns of a prefix of the lines are the prefixes of the columns. */
  lemma ColumnsOfPrefix(lines: seq<string>, listings: map<string, seq<string>>, n: nat)
    requires n <= |lines| && forall i :: 0 <= i < |lines| ==> LineValid(lines[i], listings)
    ensures AllParse(lines) && AllParse(lines[..n])
    ensures Folders(lines)[..n] == Folders(lines[..n])
    ensures Ids(lines)[..n] == Ids(lines[..n])
    ensures Labels(lines)[..n] == Labels(lines[..n])
    ensures Entries(lines, listings)[..n] == Entries(lines[..n], listings)
  {
    assert forall i :: 0 <= i < n ==> lines[..n][i] == lines[i];
  }

  /**
   * The `folder_stats` of a successful load: a key for each folder named in the file and
   * nothing else, each entry built from the LAST line naming that folder.
   */
  lemma LoadedFolderStats(lines: seq<string>, listings: map<string, seq<string>>)
    requires LoadLines(lines, listings).Ok?
    ensures forall i :: 0 <= i < |lines| ==> LineValid(lines[i], listings)
    ensures AllParse(lines)
    ensures var stats := LoadLines(lines, listings).value.folderStats;
      && (forall f :: f in stats <==> f in Folders(lines))
      && (forall f :: f in stats ==> exists i :: 0 <= i < |lines| && FolderOf(lines[i]) == f
                                              && stats[f] == EntryOf(lines[i], listings))
      && (forall i :: 0 <= i < |lines| && LastForFolder(lines, i) ==>
            stats[FolderOf(lines[i])] == EntryOf(lines[i], listings))
  {
    LoadedAsWrites(lines, listings);
    FolderKeys(Folders(lines), Entries(lines, listings));
    FolderOrigins(lines, listings);
    FolderLastWrites(lines, listings);
  }

  /** The keys written by a load are exactly the folders named. */
  lemma {:induction false} FolderKeys(keys: seq<string>, vals: seq<FolderStats>)
    requires |keys| == |vals|
    ensures forall f :: f in Assign(keys, vals) <==> f in keys
  {
    forall f ensures f in Assign(keys, vals) <==> f in keys {
      AssignDomain(keys, vals, f);
    }
  }

  /** Every entry was written by some line naming its folder. */
  lemma FolderOrigins(lines: seq<string>, listings: map<string, seq<string>>)
    requires forall i :: 0 <= i < |lines| ==> LineValid(lines[i], listings)
    ensures AllParse(lines)
    ensures var stats := Assign(Folders(lines), Entries(lines, listings));
      forall f :: f in stats ==> exists i :: 0 <= i < |lines| && FolderOf(lines[i]) == f
                                           && stats[f] == EntryOf(lines[i], listings)
  {
    assert AllParse(lines);
    var keys, vals := Folders(lines), Entries(lines, listings);
    forall f | f in Assign(keys, vals)
      ensures exists i :: 0 <= i < |lines| && FolderOf(lines[i]) == f && Assign(keys, vals)[f] == EntryOf(lines[i], listings)
    {
      AssignValue(keys, vals, f);
    }
  }

  /** The last line naming a folder decides its entry. */
  lemma FolderLastWrites(lines: seq<string>, listings: map<string, seq<string>>)
    requires forall i :: 0 <= i < |lines| ==> LineValid(lines[i], listings)
    ensures AllParse(lines)
    ensures var stats := Assign(Folders(lines), Entries(lines, listings));
      forall i :: 0 <= i < |lines| && LastForFolder(lines, i) ==>
        FolderOf(lines[i]) in stats && stats[FolderOf(lines[i])] == EntryOf(lines[i], listings)
  {
    assert AllParse(lines);
    var keys, vals := Folders(lines), Entries(lines, listings);
    forall i | 0 <= i < |lines| && LastForFolder(lines, i)
      ensures FolderOf(lines[i]) in Assign(keys, vals) && Assign(keys, vals)[FolderOf(lines[i])] == EntryOf(lines[i], listings)
    {
      AssignLast(keys, vals, i);
    }
  }

  /**
   * The `classid_to_label` of a successful load: a key for each id token in the file and
   * nothing else, mapped to the label of the LAST line with that id.
   */
  lemma LoadedLabels(lines: seq<string>, listings: map<string, seq<string>>)
    requires LoadLines(lines, listings).Ok?
    ensures AllParse(lines)
    ensures var labels := LoadLines(lines, listings).value.classToLabel;
      && (forall id :: id in labels <==> id in Ids(lines))
      && (forall i :: 0 <= i < |lines| && LastForId(lines, i) ==> labels[IdOf(lines[i])] == LabelOf(lines[i]))
  {
    LoadedAsWrites(lines, listings);
    var keys, vals := Ids(lines), Labels(lines);
    forall id ensures id in Assign(keys, vals) <==> id in keys {
      AssignDomain(keys, vals, id);
    }
    forall i | 0 <= i < |lines| && LastForId(lines, i)
      ensures Assign(keys, vals)[IdOf(lines[i])] == LabelOf(lines[i])
    {
      AssignLast(keys, vals, i);
    }
  }

  /**
   * `entry` is what the loader builds for folder `f`: the folder's listing in ascending
   * image-key order, its size as `len`, and as `id` the parsed class id of a line naming `f`.
   */
  ghost predicate EntryFromFile(entry: FolderStats, f: string, lines: seq<string>, listings: map<string, seq<string>>)
  {
    && f in listings
    && entry.len == |listings[f]| == |entry.images|
    && multiset(entry.images) == multiset(listings[f])
    && SortedBy(ByImageNumber, entry.images)
    && exists i :: 0 <= i < |lines| && ParseLine(lines[i]).Some? && FolderOf(lines[i]) == f
                && ParseNat(IdOf(lines[i])) == Some(entry.id)
  }

  /** Every `folder_stats` entry of a successful load is built from the file and the listing. */
  lemma LoadedEntries(lines: seq<string>, listings: map<string, seq<string>>)
    requires LoadLines(lines, listings).Ok?
    ensures var stats := LoadLines(lines, listings).value.folderStats;
      forall f :: f in stats ==> EntryFromFile(stats[f], f, lines, listings)
  {
    LoadedFolderStats(lines, listings);
    var stats := LoadLines(lines, listings).value.folderStats;
    forall f | f in stats ensures EntryFromFile(stats[f], f, lines, listings) {
      var i :| 0 <= i < |lines| && FolderOf(lines[i]) == f && stats[f] == EntryOf(lines[i], listings);
    }
  }

  // ---------------------------------------------------------------- _load_annotations

  /** `_load_annotations` as one function of its inputs. */
  function Annotate(phaseListing: seq<string>, lines: seq<string>, listings: map<string, seq<string>>)
    : (r: Result<Loaded, LoadError>)
    ensures r.Ok? ==>
              multiset(r.value.folderNames) == multiset(phaseListing) && SortedBy(ByFolderNumber, r.value.folderNames)
    ensures r.Ok? <==> AllKeyed(ByFolderNumber, phaseListing) && LoadLines(lines, listings).Ok?
    ensures r.Ok? ==> Tables(r.value.classToLabel, r.value.folderStats) == LoadLines(lines, listings).value
  {
    match SortByKey(ByFolderNumber, phaseListing)
    case None => Err(MalformedFolderName)
    case Some(names) =>
      match LoadLines(lines, listings)
      case Err(e) => Err(e)
      case Ok(t) => Ok(Loaded(t.classToLabel, t.folderStats, names))
  }

  /** The loader itself: folder names sorted once, then one pass over the annotation lines. */
  method LoadAnnotations(phaseListing: seq<string>, lines: seq<string>, listings: map<string, seq<string>>)
    returns (r: Result<Loaded, LoadError>)
    ensures r == Annotate(phaseListing, lines, listings)
  {
    var folderNames := SortByKey(ByFolderNumber, phaseListing);
    if folderNames.None? {
      return Err(MalformedFolderName);
    }
    var classToLabel: map<string, string> := map[];
    var folderStats: map<string, FolderStats> := map[];
    var i := 0;
    while i < |lines|
      invariant 0 <= i <= |lines|
      invariant LoadLines(lines[..i], listings) == Ok(Tables(classToLabel, folderStats))
    {
      var line := lines[i];
      assert lines[..i + 1][..i] == lines[..i] && lines[..i + 1][i] == line;
      var tokens := Words(line);
      if |tokens| != 3 {
        LoadLinesErrorPersists(lines, listings, i + 1);
        return Err(MalformedAnnotationLine(line));
      }
      var folder, id, labelName := tokens[0], tokens[1], tokens[2];
      classToLabel := classToLabel[id := labelName];
      if folder !in listings {
        LoadLinesErrorPersists(lines, listings, i + 1);
        return Err(MissingFolder(folder));
      }
      var listing := listings[folder];
      var classId := ParseNat(id);
      if classId.None? {
        LoadLinesErrorPersists(lines, listings, i + 1);
        return Err(MalformedClassId(id));
      }
      var images := SortByKey(ByImageNumber, listing);
      if images.None? {
        LoadLinesErrorPersists(lines, listings, i + 1);
        return Err(MalformedImageName(folder));
      }
      folderStats := folderStats[folder := FolderStats(classId.value, |listing|, images.value)];
      i := i + 1;
    }
    assert lines[..i] == lines;
    return Ok(Loaded(classToLabel, folderStats, folderNames.value));
  }
}
