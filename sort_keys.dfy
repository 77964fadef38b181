/**
 * The two sort keys of the annotation loader and Python's `sorted(xs, key=...)` over them.
 * A key that `int()` cannot parse (or, for images, a name with fewer than two
 * `_`/`.`-separated pieces) makes `sorted` raise: the `None` path here.
 */
module SortKeys {
  import opened Outcomes
  import opened Text

  /** Folder key: `int(folder_name[1:])`, the number after the leading letter ("n01440764"). */
  function FolderKey(name: string): (r: Option<nat>)
    ensures r.Some? <==> |name| >= 2 && forall i :: 1 <= i < |name| ==> IsDigit(name[i])
  {
    var digits := if |name| == 0 then "" else name[1..];
    assert forall i :: 1 <= i < |name| ==> name[i] == digits[i - 1];
    ParseNat(digits)
  }

  /** A letter followed by the spelling of `n`, with or without leading zeros, has key `n`. */
  lemma FolderKeyOf(letter: char, zeros: nat, n: nat)
    ensures FolderKey([letter] + Zeros(zeros) + ShowNat(n)) == Some(n)
  {
    var digits := Zeros(zeros) + ShowNat(n);
    assert [letter] + Zeros(zeros) + ShowNat(n) == [letter] + digits;
    assert ([letter] + digits)[1..] == digits;
    ZerosIgnored(zeros, ShowNat(n));
    ParseShowNat(n);
  }

  /** The key of an ImageNet synset folder: the zero padding is ignored. */
  lemma FolderKeyExample()
    ensures FolderKey("n01440764") == Some(1440764)
  {
    var name := "n01440764";
    assert name[1..] == ['0'] + "1440764";
    LeadingZeroIgnored("1440764");
    SpelledSynset();
    ParseShowNat(1440764);
  }

  lemma SpelledSynset()
    ensures ShowNat(1440764) == "1440764"
  {
    assert ShowNat(1) == "1";
    assert ShowNat(14) == ShowNat(1) + "4" == "14";
    assert ShowNat(144) == ShowNat(14) + "4" == "144";
    assert ShowNat(1440) == ShowNat(144) + "0" == "1440";
    assert ShowNat(14407) == ShowNat(1440) + "7" == "14407";
    assert ShowNat(144076) == ShowNat(14407) + "6" == "144076";
    assert ShowNat(1440764) == ShowNat(144076) + "4" == "1440764";
  }

  function Zeros(k: nat): (z: string)
    ensures |z| == k
  {
    if k == 0 then "" else ['0'] + Zeros(k - 1)
  }

  lemma {:induction false} ZerosIgnored(k: nat, s: string)
    requires |s| > 0
    ensures ParseNat(Zeros(k) + s) == ParseNat(s)
  {
    if k == 0 {
      assert Zeros(k) + s == s;
    } else {
      var t := Zeros(k - 1) + s;
      ZerosIgnored(k - 1, s);
      LeadingZeroIgnored(t);
      assert Zeros(k) == ['0'] + Zeros(k - 1);
      assert Zeros(k) + s == ['0'] + t;
    }
  }

  /**
   * Image key: `int(image_name.replace('.', '_').split('_')[1])`, the number between the
   * first and second separator ("n01440764_10026.JPEG" has key 10026).
   */
  function ImageKey(name: string): (r: Option<nat>)
    ensures r.Some? ==> exists i :: 0 <= i < |name| && (name[i] == '_' || name[i] == '.')
  {
    var parts := Split(Replace(name, '.', '_'), '_');
    if |parts| < 2 then None
    else
      assert '_' in Replace(name, '.', '_') by {
        if '_' !in Replace(name, '.', '_') {
          SplitPieceAtEnd(Replace(name, '.', '_'), '_');
        }
      }
      ReplaceAt(name, '.', '_');
      ParseNat(parts[1])
  }

  predicate IsSeparator(c: char) { c == '_' || c == '.' }

  predicate NoSeparator(s: string) { forall i :: 0 <= i < |s| ==> !IsSeparator(s[i]) }

  /**
   * A name made of a separator-free stem, a separator, a digit string and either nothing or a
   * part that starts with a separator has the digit string's value as its key.
   */
  lemma ImageKeyOf(stem: string, sep: char, digits: string, rest: string)
    requires NoSeparator(stem) && IsSeparator(sep)
    requires |digits| > 0 && AllDigits(digits)
    requires rest == [] || IsSeparator(rest[0])
    ensures ImageKey(stem + [sep] + digits + rest) == Some(DigitsValue(digits))
  {
    var tail := Replace(rest, '.', '_');
    assert '_' !in stem && '.' !in stem by {
      forall i | 0 <= i < |stem| ensures stem[i] != '_' && stem[i] != '.' { assert !IsSeparator(stem[i]); }
    }
    assert '_' !in digits && '.' !in digits by {
      forall i | 0 <= i < |digits| ensures digits[i] != '_' && digits[i] != '.' { assert IsDigit(digits[i]); }
    }
    ReplacedName(stem, sep, digits, rest);
    SplitPieceThenRest(stem, '_', digits + tail);
    DigitsPiece(digits, tail);
  }

  /** Dots become underscores: the stem and the digits keep their spelling. */
  lemma ReplacedName(stem: string, sep: char, digits: string, rest: string)
    requires '.' !in stem && '.' !in digits && IsSeparator(sep)
    ensures Replace(stem + [sep] + digits + rest, '.', '_')
         == stem + ['_'] + (digits + Replace(rest, '.', '_'))
  {
    var tail := Replace(rest, '.', '_');
    Associative(stem + [sep], digits, rest);
    Associative(stem, [sep], digits + rest);
    ReplacedNested(stem, sep, digits, rest);
    Associative(stem, ['_'], digits + tail);
  }

  lemma Associative(a: string, b: string, c: string)
    ensures a + b + c == a + (b + c)
  {
  }

  lemma ReplacedNested(stem: string, sep: char, digits: string, rest: string)
    requires '.' !in stem && '.' !in digits && IsSeparator(sep)
    ensures Replace(stem + ([sep] + (digits + rest)), '.', '_')
         == stem + (['_'] + (digits + Replace(rest, '.', '_')))
  {
    UnchangedPrefix(digits, rest);
    SeparatorPrefix(sep, digits + rest);
    UnchangedPrefix(stem, [sep] + (digits + rest));
  }

  lemma UnchangedPrefix(a: string, b: string)
    requires '.' !in a
    ensures Replace(a + b, '.', '_') == a + Replace(b, '.', '_')
  {
    ReplaceAppend(a, b, '.', '_');
    ReplaceAbsent(a, '.', '_');
  }

  lemma SeparatorPrefix(sep: char, b: string)
    requires IsSeparator(sep)
    ensures Replace([sep] + b, '.', '_') == ['_'] + Replace(b, '.', '_')
  {
    ReplaceAppend([sep], b, '.', '_');
    assert Replace([sep], '.', '_') == ['_'];
  }

  /** A separator-free piece followed by nothing or by `_` is the first piece of the split. */
  lemma DigitsPiece(digits: string, tail: string)
    requires '_' !in digits
    requires tail == [] || tail[0] == '_'
    ensures Split(digits + tail, '_')[0] == digits
  {
    if tail == [] {
      assert digits + tail == digits;
      SplitPieceAtEnd(digits, '_');
    } else {
      assert digits + tail == digits + ['_'] + tail[1..];
      SplitPieceThenRest(digits, '_', tail[1..]);
    }
  }

  /** The key of an ImageNet training image. */
  lemma ImageKeyExample()
    ensures ImageKey("n01440764_10026.JPEG") == Some(10026)
  {
    ImageKeyOf("n01440764", '_', "10026", ".JPEG");
    ParseShowNat(10026);
    assert ShowNat(10026) == "10026";
    assert "n01440764" + ['_'] + "10026" + ".JPEG" == "n01440764_10026.JPEG";
  }

  /** A name with no separator at all has no image key (`split('_')[1]` raises IndexError). */
  lemma ImageKeyNeedsSeparator(name: string)
    requires NoSeparator(name)
    ensures ImageKey(name) == None
  {
    var r := Replace(name, '.', '_');
    ReplaceAt(name, '.', '_');
    assert '_' !in r by {
      forall i | 0 <= i < |r| ensures r[i] != '_' { assert !IsSeparator(name[i]); }
    }
    SplitPieceAtEnd(r, '_');
  }

  /**
   * The converse of `ImageKeyOf`: a name has a key only when it is a separator-free stem, a
   * separator, a nonempty digit string and nothing or a separator-led rest, and the key is
   * the digit string's value. So `a__1.JPEG` (`int('')`) and `a_1x.JPEG` (`int('1x')`) have none.
   */
  lemma ImageKeyHasShape(name: string)
    requires ImageKey(name).Some?
    ensures exists stem, sep, digits, rest :: KeyShape(name, stem, sep, digits, rest)
  {
    var r := Replace(name, '.', '_');
    var parts := Split(r, '_');
    var d := parts[1];
    assert ImageKey(name) == ParseNat(d) == Some(DigitsValue(d));
    var restR := SplitShape(r);
    var stem, sep, rest := Unreplace(name, parts[0], d, restR);
    KeyedShape(name, stem, sep, d, rest);
  }

  /** `name` is `stem`, `sep`, `digits`, `rest` in the shape `ImageKeyOf` describes, with the digits' value as key. */
  predicate KeyShape(name: string, stem: string, sep: char, digits: string, rest: string)
  {
    && name == stem + [sep] + digits + rest
    && NoSeparator(stem) && IsSeparator(sep)
    && |digits| > 0 && AllDigits(digits)
    && (rest == [] || IsSeparator(rest[0]))
    && ImageKey(name) == Some(DigitsValue(digits))
  }

  lemma KeyedShape(name: string, stem: string, sep: char, digits: string, rest: string)
    requires KeyShape(name, stem, sep, digits, rest)
    ensures exists stem, sep, digits, rest :: KeyShape(name, stem, sep, digits, rest)
  {
  }

  /** Reading the pieces of the replaced name back off the name itself. */
  lemma Unreplace(name: string, p0: string, d: string, restR: string) returns (stem: string, sep: char, rest: string)
    requires Replace(name, '.', '_') == p0 + ['_'] + d + restR
    requires '_' !in p0 && AllDigits(d) && (restR == [] || restR[0] == '_')
    ensures name == stem + [sep] + d + rest
    ensures NoSeparator(stem) && IsSeparator(sep) && (rest == [] || IsSeparator(rest[0]))
  {
    var r := Replace(name, '.', '_');
    var a, b := |p0|, |p0| + 1 + |d|;
    stem, sep, rest := name[..a], name[a], name[b..];
    assert NoSeparator(stem) by {
      forall i | 0 <= i < a ensures !IsSeparator(stem[i]) {
        assert r[i] == p0[i];
        Unreplaced(name, i);
      }
    }
    assert IsSeparator(sep) by {
      assert r[a] == '_';
      Unreplaced(name, a);
    }
    assert name[a + 1..b] == d by {
      forall j | 0 <= j < |d| ensures name[a + 1 + j] == d[j] {
        assert r[a + 1 + j] == d[j];
        assert IsDigit(d[j]);
        Unreplaced(name, a + 1 + j);
      }
    }
    assert rest == [] || IsSeparator(rest[0]) by {
      if b < |name| {
        assert r[b] == restR[0];
        Unreplaced(name, b);
      }
    }
    assert name == name[..a] + [name[a]] + name[a + 1..b] + name[b..];
  }

  /** Undoing `replace('.', '_')` at one position: a `_` came from a separator, anything else is unchanged. */
  lemma Unreplaced(name: string, i: nat)
    requires i < |name|
    ensures Replace(name, '.', '_')[i] == '_' <==> IsSeparator(name[i])
    ensures Replace(name, '.', '_')[i] != '_' ==> name[i] == Replace(name, '.', '_')[i]
  {
    ReplaceAt(name, '.', '_');
  }

  /** The replaced name is its first piece, `_`, its second piece and nothing or a `_`-led rest. */
  lemma SplitShape(r: string) returns (restR: string)
    requires |Split(r, '_')| >= 2
    ensures var parts := Split(r, '_');
      r == parts[0] + ['_'] + parts[1] + restR && (restR == [] || restR[0] == '_')
  {
    var parts := Split(r, '_');
    JoinSplit(r, '_');
    var tail := parts[1..];
    assert Join(parts, '_') == parts[0] + ['_'] + Join(tail, '_');
    if |tail| == 1 {
      restR := [];
      assert Join(tail, '_') == parts[1];
    } else {
      restR := ['_'] + Join(tail[1..], '_');
      assert Join(tail, '_') == parts[1] + ['_'] + Join(tail[1..], '_');
    }
  }

  // ---------------------------------------------------------------- sorted(xs, key=...)

  /** Which of the two sort keys a `sorted` call uses. */
  datatype SortKey = ByFolderNumber | ByImageNumber

  function KeyOf(k: SortKey, name: string): Option<nat>
  {
    match k
    case ByFolderNumber => FolderKey(name)
    case ByImageNumber => ImageKey(name)
  }

  predicate AllKeyed(k: SortKey, s: seq<string>)
  {
    forall x :: x in s ==> KeyOf(k, x).Some?
  }

  function Key(k: SortKey, x: string): nat
    requires KeyOf(k, x).Some?
  {
    KeyOf(k, x).value
  }

  /** `s` is in ascending key order. */
  predicate SortedBy(k: SortKey, s: seq<string>)
  {
    AllKeyed(k, s) && forall i, j :: 0 <= i < j < |s| ==> Key(k, s[i]) <= Key(k, s[j])
  }

  /** Inserts `x` before the first element whose key is not smaller (keeps the sort stable). */
  function Insert(k: SortKey, x: string, s: seq<string>): (r: seq<string>)
    requires KeyOf(k, x).Some? && AllKeyed(k, s)
    ensures multiset(r) == multiset(s) + multiset{x}
    ensures |r| == |s| + 1
  {
    if |s| == 0 || Key(k, x) <= Key(k, s[0]) then [x] + s
    else
      assert s == [s[0]] + s[1..];
      [s[0]] + Insert(k, x, s[1..])
  }

  /** Prepending an element whose key is at most the head's keeps a sorted sequence sorted. */
  lemma SortedCons(k: SortKey, a: string, t: seq<string>)
    requires KeyOf(k, a).Some? && SortedBy(k, t)
    requires |t| > 0 ==> Key(k, a) <= Key(k, t[0])
    ensures SortedBy(k, [a] + t)
  {
    var r := [a] + t;
    forall i, j | 0 <= i < j < |r| ensures Key(k, r[i]) <= Key(k, r[j]) {
      assert r[j] == t[j - 1];
      if i > 0 {
        assert r[i] == t[i - 1];
      }
    }
  }

  lemma {:induction false} InsertSorted(k: SortKey, x: string, s: seq<string>)
    requires KeyOf(k, x).Some? && SortedBy(k, s)
    ensures SortedBy(k, Insert(k, x, s))
    ensures Insert(k, x, s)[0] == x || (|s| > 0 && Insert(k, x, s)[0] == s[0])
  {
    if |s| == 0 || Key(k, x) <= Key(k, s[0]) {
      SortedCons(k, x, s);
    } else {
      var t := s[1..];
      InsertSorted(k, x, t);
      var rt := Insert(k, x, t);
      assert |t| > 0 ==> Key(k, s[0]) <= Key(k, t[0]);
      SortedCons(k, s[0], rt);
    }
  }

  /** Reordering keeps every element keyed. */
  lemma KeyedPermutation(k: SortKey, a: seq<string>, b: seq<string>)
    requires AllKeyed(k, a) && multiset(a) == multiset(b)
    ensures AllKeyed(k, b)
  {
    forall x | x in b ensures KeyOf(k, x).Some? {
      assert x in multiset(b);
    }
  }

  function InsertionSort(k: SortKey, s: seq<string>): (r: seq<string>)
    requires AllKeyed(k, s)
    ensures multiset(r) == multiset(s)
    ensures SortedBy(k, r)
  {
    if |s| == 0 then []
    else
      var rest := InsertionSort(k, s[1..]);
      KeyedPermutation(k, s[1..], rest);
      assert s == [s[0]] + s[1..];
      InsertSorted(k, s[0], rest);
      Insert(k, s[0], rest)
  }

  /**
   * Python `sorted(s, key=...)`: `None` when some element has no key (the ValueError or
   * IndexError path), otherwise the elements in ascending key order.
   */
  function SortByKey(k: SortKey, s: seq<string>): (r: Option<seq<string>>)
    ensures r.Some? <==> AllKeyed(k, s)
    ensures r.Some? ==> multiset(r.value) == multiset(s) && |r.value| == |s| && SortedBy(k, r.value)
  {
    if AllKeyed(k, s) then
      var sorted := InsertionSort(k, s);
      assert |sorted| == |multiset(sorted)| == |s|;
      Some(sorted)
    else None
  }

  /** Folders sort by number, not by spelling: "n9" comes before "n10". */
  lemma NumericFolderOrder()
    ensures SortByKey(ByFolderNumber, ["n10", "n9"]) == Some(["n9", "n10"])
  {
    SmallFolderKeys();
    var s := ["n10", "n9"];
    assert AllKeyed(ByFolderNumber, s);
    assert InsertionSort(ByFolderNumber, s[1..]) == ["n9"];
    assert Insert(ByFolderNumber, "n10", ["n9"]) == ["n9", "n10"];
  }

  lemma SmallFolderKeys()
    ensures FolderKey("n10") == Some(10) && FolderKey("n9") == Some(9)
  {
    assert "n10"[1..] == "10" && "n9"[1..] == "9";
    assert ShowNat(10) == "10" && ShowNat(9) == "9";
    ParseShowNat(10);
    ParseShowNat(9);
  }
}
