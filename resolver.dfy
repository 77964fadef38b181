/**
 * `_calculate_image_folder_and_name` and the lookup part of `__getitem__`: a global index
 * becomes a folder position, a local index in that folder, the folder name, the image name
 * and the folder's class id.
 */
module Resolver {
  import opened Outcomes
  import opened Dataset

  /** An `IndexError` or `KeyError` raised while resolving. */
  datatype LookupError =
    | FolderIndexOutOfRange(position: nat)          // `folder_names[position]`
    | MissingEntry(folder: string)                  // `folder_stats[folder]`, a `KeyError`
    | ImageIndexOutOfRange(folder: string, local: nat) // `folder_stats[folder]["images"][local]`

  /** A resolved index: the folder's position in `folder_names`, the local index and the two names. */
  datatype Location = Location(position: nat, local: nat, folder: string, image: string)

  /** What `__getitem__` returns besides the decoded pixels: the file and its class id. */
  datatype Item = Item(folder: string, image: string, classId: nat)

  predicate Listed(ds: Dataset) { Indexed(ds.folderStats, ds.folderNames) }

  function Images(ds: Dataset, position: nat): seq<string>
    requires Listed(ds) && position < |ds.folderNames|
  {
    ds.folderStats[ds.folderNames[position]].images
  }

  function Size(ds: Dataset, position: nat): nat
    requires Listed(ds) && position < |ds.folderNames|
  {
    Len(ds.folderStats, ds.folderNames, position)
  }

  function Before(ds: Dataset, position: nat): nat
    requires Listed(ds) && position <= |ds.folderNames|
  {
    Prefix(ds.folderStats, ds.folderNames, position)
  }

  function Total(ds: Dataset): nat
    requires Listed(ds)
  {
    Before(ds, |ds.folderNames|)
  }

  /**
   * `folder_name = folder_names[position]` then `folder_stats[folder_name]["images"][local]`:
   * the position is checked first, then the folder's entry, then the local index.
   */
  function Lookup(ds: Dataset, position: nat, local: nat): (r: Result<Location, LookupError>)
    ensures r.Ok? <==> position < |ds.folderNames| && ds.folderNames[position] in ds.folderStats
                       && local < |ds.folderStats[ds.folderNames[position]].images|
    ensures r == Err(FolderIndexOutOfRange(position)) <==> position >= |ds.folderNames|
    ensures (r.Err? && r.error.MissingEntry?) <==>
              position < |ds.folderNames| && ds.folderNames[position] !in ds.folderStats
    ensures r.Err? && !r.error.FolderIndexOutOfRange? ==> r.error.folder == ds.folderNames[position]
    ensures r.Ok? ==> r.value.position == position && r.value.local == local
    ensures r.Ok? ==> r.value.folder == ds.folderNames[position]
                      && r.value.image == ds.folderStats[r.value.folder].images[local]
  {
    if position >= |ds.folderNames| then Err(FolderIndexOutOfRange(position))
    else if ds.folderNames[position] !in ds.folderStats then Err(MissingEntry(ds.folderNames[position]))
    else
      var folder := ds.folderNames[position];
      var images := ds.folderStats[folder].images;
      if local >= |images| then Err(ImageIndexOutOfRange(folder, local))
      else Ok(Location(position, local, folder, images[local]))
  }

  // ---------------------------------------------------------------- val phase

  /** Val phase: folder `folder_names[g // 50]`, local index `g % 50`. */
  function ResolveVal(ds: Dataset, g: nat): (r: Result<Location, LookupError>)
    requires g < ds.length
    ensures r.Ok? ==> r.value.local < ValFolderSize && ValFolderSize * r.value.position + r.value.local == g
  {
    Lookup(ds, g / ValFolderSize, g % ValFolderSize)
  }

  /** Indices `50k .. 50k+49` all land in folder position `k`, at local index `j` for `50k + j`. */
  lemma ValBlock(ds: Dataset, k: nat, j: nat)
    requires j < ValFolderSize && ValFolderSize * k + j < ds.length
    requires ResolveVal(ds, ValFolderSize * k + j).Ok?
    ensures ResolveVal(ds, ValFolderSize * k + j).value.position == k
    ensures ResolveVal(ds, ValFolderSize * k + j).value.local == j
  {
  }

  /**
   * When the val folders are at least 50 images each and there are no fewer listed folders
   * than annotated ones, every index below the length resolves.
   */
  lemma ValInBounds(ds: Dataset, g: nat)
    requires Listed(ds) && g < ds.length && ds.phase == Val
    requires ds.length == ValFolderSize * |ds.folderStats| <= ValFolderSize * |ds.folderNames|
    requires forall i :: 0 <= i < |ds.folderNames| ==> |Images(ds, i)| >= ValFolderSize
    ensures ResolveVal(ds, g).Ok?
  {
    assert g / ValFolderSize < |ds.folderNames|;
    assert ds.folderNames[g / ValFolderSize] in ds.folderNames;
    assert |Images(ds, g / ValFolderSize)| >= ValFolderSize;
  }

  // ---------------------------------------------------------------- train phase

  /**
   * The forward scan of the train branch from folder position `i` with running offset `sum`:
   * `while sum + len(folder i) <= g: sum += len(folder i); i += 1`. Reading past the last
   * folder is the `IndexError` of `folder_names[i]`.
   */
  function Scan(ds: Dataset, g: nat, i: nat, sum: nat): Result<(nat, nat), LookupError>
    requires Listed(ds) && sum <= g
    decreases |ds.folderNames| - i
  {
    if i >= |ds.folderNames| then Err(FolderIndexOutOfRange(i))
    else if sum + Size(ds, i) <= g then Scan(ds, g, i + 1, sum + Size(ds, i))
    else Ok((i, g - sum))
  }

  /**
   * The scan stops at the first folder position `p >= i` whose end, counted from `sum` on,
   * lies beyond `g`, and `g` is its offset plus the local index; it fails exactly when there
   * is no such folder.
   */
  lemma {:induction false} ScanFinds(ds: Dataset, g: nat, i: nat, sum: nat)
    requires Listed(ds) && sum <= g
    ensures Scan(ds, g, i, sum).Ok? <==> i < |ds.folderNames| && g < sum + Total(ds) - Before(ds, i)
    ensures Scan(ds, g, i, sum).Ok? ==>
      var (p, local) := Scan(ds, g, i, sum).value;
      && i <= p < |ds.folderNames|
      && sum + Before(ds, p) - Before(ds, i) <= g < sum + Before(ds, p + 1) - Before(ds, i)
      && local == g - (sum + Before(ds, p) - Before(ds, i))
    decreases |ds.folderNames| - i
  {
    if i < |ds.folderNames| {
      PrefixMonotone(ds.folderStats, ds.folderNames, i + 1, |ds.folderNames|);
      if sum + Size(ds, i) <= g {
        ScanFinds(ds, g, i + 1, sum + Size(ds, i));
      }
    }
  }

  /** A scan started at a true folder boundary continues exactly as one started at position 0. */
  lemma {:induction false} ScanFromBoundary(ds: Dataset, g: nat, k: nat)
    requires Listed(ds) && k <= |ds.folderNames| && Before(ds, k) <= g
    ensures Scan(ds, g, 0, 0) == Scan(ds, g, k, Before(ds, k))
  {
    if k > 0 {
      PrefixMonotone(ds.folderStats, ds.folderNames, k - 1, k);
      ScanFromBoundary(ds, g, k - 1);
    }
  }

  /**
   * Train phase as written: first guess `folder_i = g // 1300` with offset `1300 * folder_i`,
   * then the forward scan.
   */
  function TrainResolution(ds: Dataset, g: nat): Result<Location, LookupError>
    requires Listed(ds)
  {
    var start := g / TrainMaxFolderSize;
    match Scan(ds, g, start, TrainMaxFolderSize * start)
    case Err(e) => Err(e)
    case Ok((p, local)) => Lookup(ds, p, local)
  }

  /** The train branch of `_calculate_image_folder_and_name`, with its `while` loop. */
  method ResolveTrain(ds: Dataset, g: nat) returns (r: Result<Location, LookupError>)
    requires Listed(ds) && g < ds.length
    ensures r == TrainResolution(ds, g)
  {
    var folderI := g / TrainMaxFolderSize;
    var sum: nat := TrainMaxFolderSize * folderI;
    while folderI < |ds.folderNames| && sum + ds.folderStats[ds.folderNames[folderI]].len <= g
      invariant sum <= g
      invariant Scan(ds, g, folderI, sum) == Scan(ds, g, g / TrainMaxFolderSize, TrainMaxFolderSize * (g / TrainMaxFolderSize))
      decreases |ds.folderNames| - folderI
    {
      sum := sum + ds.folderStats[ds.folderNames[folderI]].len;
      folderI := folderI + 1;
    }
    if folderI >= |ds.folderNames| {
      return Err(FolderIndexOutOfRange(folderI));
    }
    var folderName := ds.folderNames[folderI];
    var localIdx := g - sum;
    var images := ds.folderStats[folderName].images;
    if localIdx >= |images| {
      return Err(ImageIndexOutOfRange(folderName, localIdx));
    }
    return Ok(Location(folderI, localIdx, folderName, images[localIdx]));
  }

  lemma {:induction false} PrefixAtMostMax(ds: Dataset, k: nat)
    requires Listed(ds) && k <= |ds.folderNames|
    requires forall i :: 0 <= i < |ds.folderNames| ==> Size(ds, i) <= TrainMaxFolderSize
    ensures Before(ds, k) <= TrainMaxFolderSize * k
  {
    if k > 0 {
      PrefixAtMostMax(ds, k - 1);
      assert Before(ds, k) == Before(ds, k - 1) + Size(ds, k - 1);
    }
  }

  /**
   * With every folder at most 1300 images and `len` equal to the image count, every index
   * below the total resolves: the loop stops inside the folder list at a local index below
   * that folder's length.
   */
  lemma TrainInBounds(ds: Dataset, g: nat)
    requires Listed(ds) && WellFormed(ds) && g < Total(ds)
    requires forall i :: 0 <= i < |ds.folderNames| ==> Size(ds, i) <= TrainMaxFolderSize
    ensures TrainResolution(ds, g).Ok?
    ensures TrainResolution(ds, g).value.position < |ds.folderNames|
    ensures TrainResolution(ds, g).value.local < Size(ds, TrainResolution(ds, g).value.position)
  {
    var n := |ds.folderNames|;
    var start := g / TrainMaxFolderSize;
    PrefixAtMostMax(ds, n);
    assert start < n;
    PrefixAtMostMax(ds, start);
    ScanFinds(ds, g, start, TrainMaxFolderSize * start);
    var (p, local) := Scan(ds, g, start, TrainMaxFolderSize * start).value;
    assert ds.folderNames[p] in ds.folderStats;
  }

  /**
   * The first guess `g // 1300` never lies past the folder that holds `g`: the train result lies
   * at or after the guess and at or before the exact one. What overshoots is the guessed offset
   * `1300 * folder_i`, which can exceed the images really in the earlier folders, so the scan
   * stops too early.
   */
  lemma TrainNotPastExact(ds: Dataset, g: nat)
    requires Listed(ds) && WellFormed(ds) && g < Total(ds)
    requires forall i :: 0 <= i < |ds.folderNames| ==> Size(ds, i) <= TrainMaxFolderSize
    ensures TrainResolution(ds, g).Ok? && ExactResolution(ds, g).Ok?
    ensures g / TrainMaxFolderSize <= TrainResolution(ds, g).value.position
    ensures TrainResolution(ds, g).value.position <= ExactResolution(ds, g).value.position
  {
    var start := g / TrainMaxFolderSize;
    TrainInBounds(ds, g);
    ExactDecomposition(ds, g);
    PrefixAtMostMax(ds, |ds.folderNames|);
    assert start < |ds.folderNames|;
    PrefixAtMostMax(ds, start);
    ScanFinds(ds, g, start, TrainMaxFolderSize * start);
    var pt := TrainResolution(ds, g).value.position;
    var pe := ExactResolution(ds, g).value.position;
    if pt > pe {
      PrefixMonotone(ds.folderStats, ds.folderNames, pe + 1, pt);
    }
  }

  /**
   * When the folders before the first guess hold exactly 1300 images each, the guessed offset is
   * the true one and the train resolution is the exact one.
   */
  lemma TrainExactWhenFull(ds: Dataset, g: nat)
    requires Listed(ds)
    requires g / TrainMaxFolderSize <= |ds.folderNames|
    requires Before(ds, g / TrainMaxFolderSize) == TrainMaxFolderSize * (g / TrainMaxFolderSize)
    ensures TrainResolution(ds, g) == ExactResolution(ds, g)
  {
    ScanFromBoundary(ds, g, g / TrainMaxFolderSize);
  }

  /**
   * Below 1300 the train resolution is the true decomposition: `g` is the number of images
   * in the folders before the resolved one plus the local index.
   */
  lemma TrainDecompositionBelowMax(ds: Dataset, g: nat)
    requires Listed(ds) && g < TrainMaxFolderSize && TrainResolution(ds, g).Ok?
    ensures var loc := TrainResolution(ds, g).value;
      && loc.position < |ds.folderNames|
      && Before(ds, loc.position) <= g < Before(ds, loc.position + 1)
      && g == Before(ds, loc.position) + loc.local
  {
    ScanFinds(ds, g, 0, 0);
  }

  // ---------------------------------------------------------------- the corrected resolution

  /** The resolution with the true offset: scan from the first folder with offset 0. */
  function ExactResolution(ds: Dataset, g: nat): Result<Location, LookupError>
    requires Listed(ds)
  {
    match Scan(ds, g, 0, 0)
    case Err(e) => Err(e)
    case Ok((p, local)) => Lookup(ds, p, local)
  }

  /**
   * The exact resolution resolves every index below the total (given `len` equals the image
   * count) and returns the unique position `p` with `Before(p) <= g < Before(p + 1)`, at local
   * index `g - Before(p)`.
   */
  lemma ExactDecomposition(ds: Dataset, g: nat)
    requires Listed(ds)
    ensures WellFormed(ds) && g < Total(ds) ==> ExactResolution(ds, g).Ok?
    ensures ExactResolution(ds, g).Ok? ==>
      var loc := ExactResolution(ds, g).value;
      && g < Total(ds)
      && loc.position < |ds.folderNames|
      && Before(ds, loc.position) <= g < Before(ds, loc.position + 1)
      && g == Before(ds, loc.position) + loc.local
  {
    ScanFinds(ds, g, 0, 0);
    if Scan(ds, g, 0, 0).Ok? {
      var (p, local) := Scan(ds, g, 0, 0).value;
      assert ds.folderNames[p] in ds.folderStats;
    }
  }

  /** The exact resolution never moves backwards through the folders as the index grows. */
  lemma ExactMonotone(ds: Dataset, g1: nat, g2: nat)
    requires Listed(ds) && g1 <= g2
    requires ExactResolution(ds, g1).Ok? && ExactResolution(ds, g2).Ok?
    ensures ExactResolution(ds, g1).value.position <= ExactResolution(ds, g2).value.position
  {
    ExactDecomposition(ds, g1);
    ExactDecomposition(ds, g2);
    var p1 := ExactResolution(ds, g1).value.position;
    var p2 := ExactResolution(ds, g2).value.position;
    if p1 > p2 {
      PrefixMonotone(ds.folderStats, ds.folderNames, p2 + 1, p1);
    }
  }

  /**
   * With every val folder holding exactly 50 images, the val formula is the exact resolution.
   */
  lemma ValIsExact(ds: Dataset, g: nat)
    requires Listed(ds) && g < ds.length && g < ValFolderSize * |ds.folderNames|
    requires forall i :: 0 <= i < |ds.folderNames| ==> Size(ds, i) == ValFolderSize
    ensures ResolveVal(ds, g) == ExactResolution(ds, g)
  {
    var p := g / ValFolderSize;
    assert p < |ds.folderNames|;
    ValPrefix(ds, p + 1);
    ValPrefix(ds, p);
    ScanFromBoundary(ds, g, p);
  }

  lemma {:induction false} ValPrefix(ds: Dataset, k: nat)
    requires Listed(ds) && k <= |ds.folderNames|
    requires forall i :: 0 <= i < |ds.folderNames| ==> Size(ds, i) == ValFolderSize
    ensures Before(ds, k) == ValFolderSize * k
  {
    if k > 0 {
      ValPrefix(ds, k - 1);
      assert Before(ds, k) == Before(ds, k - 1) + Size(ds, k - 1);
    }
  }

  // ---------------------------------------------------------------- __getitem__

  /** `_calculate_image_folder_and_name` for the dataset's phase. */
  function Resolution(ds: Dataset, g: nat): Result<Location, LookupError>
    requires g < ds.length && (ds.phase == Train ==> Listed(ds))
  {
    match ds.phase
    case Val => ResolveVal(ds, g)
    case Train => TrainResolution(ds, g)
  }

  /**
   * `__getitem__` without the image decoding: resolve the index, then return the file and
   * `folder_stats[folder_name]["id"]` as the class id.
   */
  method GetItem(ds: Dataset, g: nat) returns (r: Result<Item, LookupError>)
    requires g < ds.length && (ds.phase == Train ==> Listed(ds))
    ensures r.Err? <==> Resolution(ds, g).Err?
    ensures r.Err? ==> r.error == Resolution(ds, g).error
    ensures r.Ok? ==>
      var loc := Resolution(ds, g).value;
      && r.value.folder == loc.folder == ds.folderNames[loc.position]
      && r.value.image == loc.image == ds.folderStats[loc.folder].images[loc.local]
      && r.value.classId == ds.folderStats[loc.folder].id
  {
    var loc: Result<Location, LookupError>;
    if ds.phase == Val {
      loc := ResolveVal(ds, g);
    } else {
      loc := ResolveTrain(ds, g);
    }
    if loc.Err? {
      return Err(loc.error);
    }
    var folderName := loc.value.folder;
    return Ok(Item(folderName, loc.value.image, ds.folderStats[folderName].id));
  }
}

/** Worked examples of the resolution on small datasets. */
module ResolverExamples {
  import opened Outcomes
  import opened Annotations
  import opened Dataset
  import opened Resolver

  /** Two train folders: n01 (class 0) with two images, n02 (class 1) with three. */
  function SmallTrain(): Dataset
  {
    Dataset(Train, map["0" := "tench", "1" := "goldfish"],
            map["n01" := FolderStats(0, 2, ["a_1.JPEG", "a_2.JPEG"]),
                "n02" := FolderStats(1, 3, ["b_1.JPEG", "b_2.JPEG", "b_3.JPEG"])],
            ["n01", "n02"], 5)
  }

  /**
   * Length 5 is the total of the two folders; index 0 is n01's first image, 1 its second,
   * 2 is n02's first image and 4 its third.
   */
  lemma SmallTrainResolves()
    ensures Listed(SmallTrain()) && SmallTrain().length == Total(SmallTrain())
    ensures TrainResolution(SmallTrain(), 0) == Ok(Location(0, 0, "n01", "a_1.JPEG"))
    ensures TrainResolution(SmallTrain(), 1) == Ok(Location(0, 1, "n01", "a_2.JPEG"))
    ensures TrainResolution(SmallTrain(), 2) == Ok(Location(1, 0, "n02", "b_1.JPEG"))
    ensures TrainResolution(SmallTrain(), 4) == Ok(Location(1, 2, "n02", "b_3.JPEG"))
  {
    var ds := SmallTrain();
    assert Size(ds, 0) == 2 && Size(ds, 1) == 3;
    assert Before(ds, 1) == 2;
    assert Scan(ds, 2, 1, 2) == Ok((1, 0));
    assert Scan(ds, 4, 1, 2) == Ok((1, 2));
  }

  /** Four train folders of 1, 1, 1 and 1300 images: all within the 1300 bound. */
  function Uneven(): Dataset
  {
    Dataset(Train, map[],
            map["n1" := FolderStats(0, 1, ["n1_1.JPEG"]),
                "n2" := FolderStats(1, 1, ["n2_1.JPEG"]),
                "n3" := FolderStats(2, 1, ["n3_1.JPEG"]),
                "n4" := FolderStats(3, 1300, seq(1300, i => "n4_x.JPEG"))],
            ["n1", "n2", "n3", "n4"], 1303)
  }

  /**
   * As written, index 2 resolves to folder position 2 but index 1300 to position 1: the folder
   * position is not monotone, index 1300 lands on the same image as index 1, and the exact
   * answer for 1300 (position 3, local index 1297) is never produced for it.
   */
  lemma TrainNotMonotone()
    ensures Listed(Uneven()) && Uneven().length == Total(Uneven())
    ensures TrainResolution(Uneven(), 2).Ok? && TrainResolution(Uneven(), 2).value.position == 2
    ensures TrainResolution(Uneven(), 1300) == TrainResolution(Uneven(), 1) == Ok(Location(1, 0, "n2", "n2_1.JPEG"))
    ensures ExactResolution(Uneven(), 1300).Ok? && ExactResolution(Uneven(), 1300).value.position == 3
                                                && ExactResolution(Uneven(), 1300).value.local == 1297
  {
    var ds := Uneven();
    assert Size(ds, 0) == 1 && Size(ds, 1) == 1 && Size(ds, 2) == 1 && Size(ds, 3) == 1300;
    assert Before(ds, 1) == 1 && Before(ds, 2) == 2 && Before(ds, 3) == 3 && Before(ds, 4) == 1303;
    assert Scan(ds, 2, 2, 2) == Ok((2, 0));
    assert Scan(ds, 1, 1, 1) == Ok((1, 0));
    assert Scan(ds, 1300, 1, 1300) == Ok((1, 0));
    assert Scan(ds, 1300, 3, 3) == Ok((3, 1297));
  }

  /**
   * As written, no index of the uneven dataset reaches local index 1297, 1298 or 1299 of its
   * last folder: below 1300 the scan from folder 0 puts index `g` at local `g - 3`, and from
   * 1300 on the guess starts at folder 1 with offset 1300, so 1302 is local index 0 of n4.
   */
  lemma UnevenSkipsLastImages(g: nat)
    requires g < Uneven().length
    ensures Listed(Uneven())
    ensures var r := TrainResolution(Uneven(), g);
      r.Ok? && r.value.position == 3 ==> r.value.local < 1297
  {
    var ds := Uneven();
    assert Size(ds, 0) == 1 && Size(ds, 1) == 1 && Size(ds, 2) == 1 && Size(ds, 3) == 1300;
    assert Before(ds, 1) == 1 && Before(ds, 2) == 2 && Before(ds, 3) == 3 && Before(ds, 4) == 1303;
    var start := g / TrainMaxFolderSize;
    assert start <= 1;
    ScanFinds(ds, g, start, TrainMaxFolderSize * start);
  }

  /**
   * A val dataset listing `first` and `second` of which only n1 is annotated, with its 50
   * images: `_get_len` counts annotated folders, so the length is 50.
   */
  function HalfAnnotated(first: string, second: string): Dataset
  {
    Dataset(Val, map[], map["n1" := FolderStats(0, 50, seq(50, i => "n1_x.JPEG"))], [first, second], 50)
  }

  /**
   * Opening never checks that the listed val folders are annotated: with n1 listed first every
   * index below the length resolves into n1, and with n2 listed first every one raises the
   * `KeyError` of `folder_stats["n2"]`.
   */
  lemma ValMissingEntry(g: nat)
    requires g < ValFolderSize
    ensures !Listed(HalfAnnotated("n1", "n2")) && !Listed(HalfAnnotated("n2", "n1"))
    ensures var r := ResolveVal(HalfAnnotated("n1", "n2"), g);
      r.Ok? && r.value.folder == "n1" && r.value.local == g
    ensures ResolveVal(HalfAnnotated("n2", "n1"), g) == Err(MissingEntry("n2"))
  {
    assert "n2" in HalfAnnotated("n1", "n2").folderNames;
    assert "n2" in HalfAnnotated("n2", "n1").folderNames;
  }
}
