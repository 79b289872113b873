/** The collection of loaded images (`ImageProcessor`): four parallel
    lists — paths, thumbnails, rotations and original sizes — kept aligned
    while images are loaded, rotated, removed and cleared. The imaging
    library is replaced by a `Disk`: what opening each file would yield. */
module ImageProcessing {
  import opened Wrappers
  import Paths
  import Config

  // ---------------------------------------------------------------------
  // The imaging library, made opaque
  // ---------------------------------------------------------------------

  datatype Size = Size(width: int, height: int)

  /** Size recorded for an image the library could not handle. */
  const PlaceholderSize: Size := Size(100, 100)

  /** What the imaging library makes of one file:
      `verifies` — opening it and checking it as an image succeeds;
      `header` — the size read when it is opened, None when opening fails;
      `renders` — rotating, shrinking and pasting it into a thumbnail
      succeed once it is open. */
  datatype Picture = Picture(verifies: bool, header: Option<Size>, renders: bool)

  /** The files as the library sees them. */
  type Disk = string -> Picture

  /** A thumbnail: the image drawn at its rotation, or the grey placeholder. */
  datatype Thumbnail = Rendered(source: string, rotation: int) | Placeholder

  // ---------------------------------------------------------------------
  // Helpers on sequences
  // ---------------------------------------------------------------------

  predicate Distinct<T(==)>(s: seq<T>) {
    forall i, j :: 0 <= i < j < |s| ==> s[i] != s[j]
  }

  function Zeros(n: nat): (z: seq<int>)
    ensures |z| == n && forall j :: 0 <= j < n ==> z[j] == 0
  {
    seq(n, _ => 0)
  }

  /** `a` occurs in `b` in the same order, possibly with gaps. */
  predicate Subsequence<T(==)>(a: seq<T>, b: seq<T>)
    decreases |b|
  {
    a == [] || (b != [] && ((a[0] == b[0] && Subsequence(a[1..], b[1..])) || Subsequence(a, b[1..])))
  }

  // ---------------------------------------------------------------------
  // Rotation
  // ---------------------------------------------------------------------

  predicate IsAngle(r: int) {
    r == 0 || r == 90 || r == 180 || r == 270
  }

  /** One quarter turn more: `(r + 90) % 360`. */
  function NextRotation(r: int): (n: int)
    ensures IsAngle(r) ==> IsAngle(n)
    ensures 0 <= n < 360
  {
    (r + 90) % 360
  }

  /** Four quarter turns bring any angle back to where it started. */
  lemma FourTurnsRestore(r: int)
    requires IsAngle(r)
    ensures NextRotation(NextRotation(NextRotation(NextRotation(r)))) == r
  {
  }

  // ---------------------------------------------------------------------
  // Loading
  // ---------------------------------------------------------------------

  /** `_is_supported`: the lower-cased suffix is one of the supported formats. */
  function IsSupported(path: string): (b: bool)
    ensures b ==> Paths.Suffix(path) != []
  {
    Paths.Lower(Paths.Suffix(path)) in Config.SupportedFormats
  }

  /** A file `stem + ext` is supported exactly when its extension, lower-cased,
      is a supported format: "IMG_1.JPG" is, "notes.txt" is not. */
  lemma SupportedByExtension(dir: string, stem: string, ext: string)
    requires dir == [] || Paths.IsSeparator(dir[|dir| - 1])
    requires stem != [] && forall j :: 0 <= j < |stem| ==> !Paths.IsSeparator(stem[j])
    requires |ext| >= 2 && ext[0] == '.'
    requires forall j :: 1 <= j < |ext| ==> ext[j] != '.' && !Paths.IsSeparator(ext[j])
    ensures IsSupported(dir + stem + ext) <==> Paths.Lower(ext) in Config.SupportedFormats
  {
    Paths.SuffixOfFileName(dir, stem, ext);
  }

  /** Capital letters in the extension do not matter: "photos/IMG_1.JPG"
      is supported. */
  lemma CapitalJpegSupported()
    ensures IsSupported("photos/" + "IMG_1" + ".JPG")
  {
    Paths.LowerJpg();
    SupportedByExtension("photos/", "IMG_1", ".JPG");
  }

  /** A capitalised extension of a format that is not supported stays
      unsupported: "notes.TXT" is refused. */
  lemma CapitalTextRefused()
    ensures !IsSupported("" + "notes" + ".TXT")
  {
    Paths.LowerTxt();
    assert ".txt"[1] == 't';
    assert ".txt" !in Config.SupportedFormats;
    SupportedByExtension("", "notes", ".TXT");
  }

  /** A file whose whole name is an extension, such as ".jpg", has no suffix
      and is refused. */
  lemma HiddenFileNotSupported(dir: string)
    requires dir == [] || Paths.IsSeparator(dir[|dir| - 1])
    ensures !IsSupported(dir + ".jpg")
  {
    Paths.DotFileHasNoSuffix(dir);
    assert Paths.Lower([]) == [];
  }

  /** The file filter of `load_images`: a supported suffix and a file that
      opens and verifies as an image. */
  function Acceptable(disk: Disk): (accept: string -> bool)
  {
    p => IsSupported(p) && disk(p).verifies
  }

  /** The paths `load_images` appends, in order, when `present` is already
      held and `accept` is the file filter. */
  function Admitted(present: seq<string>, paths: seq<string>, accept: string -> bool): (r: seq<string>)
    decreases |paths|
  {
    if paths == [] then []
    else if accept(paths[0]) && paths[0] !in present then
      [paths[0]] + Admitted(present + [paths[0]], paths[1..], accept)
    else Admitted(present, paths[1..], accept)
  }

  /** One step of admission, taken at position `i`. */
  lemma AdmittedStep(present: seq<string>, paths: seq<string>, accept: string -> bool, i: nat)
    requires i < |paths|
    ensures Admitted(present, paths[i..], accept) ==
      if accept(paths[i]) && paths[i] !in present
      then [paths[i]] + Admitted(present + [paths[i]], paths[i + 1..], accept)
      else Admitted(present, paths[i + 1..], accept)
  {
    assert paths[i..][0] == paths[i] && paths[i..][1..] == paths[i + 1..];
  }

  lemma DistinctAppend<T>(s: seq<T>, x: T)
    requires Distinct(s) && x !in s
    ensures Distinct(s + [x])
  {
  }

  /** Every admitted path was given, passes the filter and was not held
      before; admitting keeps the held paths free of duplicates. */
  lemma {:induction false} AdmittedSound(present: seq<string>, paths: seq<string>, accept: string -> bool)
    ensures forall x :: x in Admitted(present, paths, accept) ==>
      x in paths && accept(x) && x !in present
    ensures Distinct(present) ==> Distinct(present + Admitted(present, paths, accept))
    decreases |paths|
  {
    if paths != [] {
      var p := paths[0];
      if accept(p) && p !in present {
        AdmittedSound(present + [p], paths[1..], accept);
        var rest := Admitted(present + [p], paths[1..], accept);
        assert present + Admitted(present, paths, accept) == present + [p] + rest;
        if Distinct(present) {
          DistinctAppend(present, p);
        }
      } else {
        AdmittedSound(present, paths[1..], accept);
      }
    }
  }

  /** Nothing acceptable is dropped: every given path that passes the filter
      ends up held, either from before or newly admitted. */
  lemma {:induction false} AdmittedComplete(present: seq<string>, paths: seq<string>, accept: string -> bool)
    ensures forall x :: x in paths && accept(x) ==> x in present + Admitted(present, paths, accept)
    decreases |paths|
  {
    if paths != [] {
      var p := paths[0];
      if accept(p) && p !in present {
        AdmittedComplete(present + [p], paths[1..], accept);
        assert present + Admitted(present, paths, accept) == present + [p] + Admitted(present + [p], paths[1..], accept);
      } else {
        AdmittedComplete(present, paths[1..], accept);
      }
      assert forall x :: x in paths ==> x == p || x in paths[1..];
    }
  }

  /** Admitted paths keep the order in which they were given. */
  lemma {:induction false} AdmittedInOrder(present: seq<string>, paths: seq<string>, accept: string -> bool)
    ensures Subsequence(Admitted(present, paths, accept), paths)
    decreases |paths|
  {
    if paths != [] {
      var p := paths[0];
      if accept(p) && p !in present {
        AdmittedInOrder(present + [p], paths[1..], accept);
        var r := Admitted(present, paths, accept);
        assert r[0] == p && r[1..] == Admitted(present + [p], paths[1..], accept);
      } else {
        AdmittedInOrder(present, paths[1..], accept);
      }
    }
  }

  // ---------------------------------------------------------------------
  // Thumbnails
  // ---------------------------------------------------------------------

  /** The thumbnail built for one image at its rotation. */
  function ThumbnailFor(path: string, rotation: int, pic: Picture): Thumbnail {
    if pic.header.Some? && pic.renders then Rendered(path, rotation) else Placeholder
  }

  /** The size recorded for one image: its real size when its thumbnail could
      be built, the placeholder size otherwise. */
  function SizeFor(pic: Picture): Size {
    if pic.header.Some? && pic.renders then pic.header.value else PlaceholderSize
  }

  function Thumbnails(images: seq<string>, rotations: seq<int>, disk: Disk): (t: seq<Thumbnail>)
    requires |rotations| == |images|
    ensures |t| == |images|
  {
    seq(|images|, i requires 0 <= i < |images| => ThumbnailFor(images[i], rotations[i], disk(images[i])))
  }

  function Sizes(images: seq<string>, disk: Disk): (s: seq<Size>)
    ensures |s| == |images|
  {
    seq(|images|, i requires 0 <= i < |images| => SizeFor(disk(images[i])))
  }

  /** The sizes `_create_thumbnails` records for one image as the code is
      written: the size is appended as soon as the file is open, and the
      error handler appends the placeholder size again when building the
      thumbnail then fails. */
  function SizesAsWrittenFor(pic: Picture): (s: seq<Size>)
  {
    match pic.header
    case None => [PlaceholderSize]
    case Some(size) => if pic.renders then [size] else [size, PlaceholderSize]
  }

  function SizesAsWritten(images: seq<string>, disk: Disk): (s: seq<Size>)
    ensures |s| >= |images|
    ensures (forall i :: 0 <= i < |images| ==> disk(images[i]).header.None? || disk(images[i]).renders) ==>
      s == Sizes(images, disk)
  {
    if images == [] then []
    else
      var init := images[..|images| - 1];
      assert forall i :: 0 <= i < |init| ==> init[i] == images[i];
      assert Sizes(images, disk) == Sizes(init, disk) + [SizeFor(disk(images[|images| - 1]))];
      SizesAsWritten(init, disk) + SizesAsWrittenFor(disk(images[|images| - 1]))
  }

  /** Two images: "a.jpg" opens (3000×4000) but its thumbnail cannot be
      built, "b.jpg" is a 4000×3000 landscape photo. As written, three sizes
      are recorded for two images and the size read for image 1 is the
      placeholder, so image 1 is not reported as landscape; with one size
      per image it is. */
  lemma SizesAsWrittenMisaligned()
    ensures var images := ["a.jpg", "b.jpg"];
      var disk: Disk := p => if p == "a.jpg" then Picture(true, Some(Size(3000, 4000)), false)
                             else Picture(true, Some(Size(4000, 3000)), true);
      && |SizesAsWritten(images, disk)| == 3
      && SizesAsWritten(images, disk)[1] == PlaceholderSize
      && |Sizes(images, disk)| == 2
      && Sizes(images, disk)[1] == Size(4000, 3000)
  {
    var images := ["a.jpg", "b.jpg"];
    var disk: Disk := p => if p == "a.jpg" then Picture(true, Some(Size(3000, 4000)), false)
                           else Picture(true, Some(Size(4000, 3000)), true);
    assert images[..1] == ["a.jpg"];
    assert images[..1][..0] == [];
    assert SizesAsWritten(images[..1], disk) == [Size(3000, 4000), PlaceholderSize];
  }

  // ---------------------------------------------------------------------
  // Loading as written
  // ---------------------------------------------------------------------

  /** How opening and verifying one file ends inside the loop of
      `load_images`: it verifies; it raises one of the two exceptions the
      loop catches, so the file is skipped; or it raises another exception
      (the library's decompression-bomb error for a huge image, or the
      syntax error it raises for a corrupt PNG chunk), which leaves the
      loop. */
  datatype CheckOutcome = Verified | Caught | Escapes

  /** What the loop of `load_images` appended before it ended, and whether
      an exception ended it. */
  datatype LoadRun = LoadRun(appended: seq<string>, escaped: bool)

  /** The loop of `load_images` as written. When an exception escapes,
      the paths appended so far stay in `images` and `rotations`, and
      `_create_thumbnails` is not reached. */
  function LoadLoopAsWritten(present: seq<string>, paths: seq<string>, check: string -> CheckOutcome): (r: LoadRun)
    ensures forall x :: x in r.appended ==> x in paths && check(x) == Verified && x !in present
    ensures r.escaped ==> exists j :: 0 <= j < |paths| && check(paths[j]) == Escapes
    decreases |paths|
  {
    if paths == [] then LoadRun([], false)
    else
      var p := paths[0];
      var rest := paths[1..];
      assert forall j :: 0 <= j < |rest| ==> rest[j] == paths[j + 1];
      if !IsSupported(p) then LoadLoopAsWritten(present, rest, check)
      else match check(p)
        case Escapes => LoadRun([], true)
        case Caught => LoadLoopAsWritten(present, rest, check)
        case Verified =>
          if p in present then LoadLoopAsWritten(present, rest, check)
          else
            var run := LoadLoopAsWritten(present + [p], rest, check);
            LoadRun([p] + run.appended, run.escaped)
  }

  /** When no check lets an exception escape, the loop as written admits
      exactly what `Admitted` admits with the filter "supported and
      verified", and ends normally. */
  lemma {:induction false} LoadLoopWithoutEscapes(present: seq<string>, paths: seq<string>,
                                                  check: string -> CheckOutcome, accept: string -> bool)
    requires forall j :: 0 <= j < |paths| ==> check(paths[j]) != Escapes
    requires forall j :: 0 <= j < |paths| ==> (accept(paths[j]) <==> IsSupported(paths[j]) && check(paths[j]) == Verified)
    ensures LoadLoopAsWritten(present, paths, check) == LoadRun(Admitted(present, paths, accept), false)
    decreases |paths|
  {
    if paths != [] {
      var p := paths[0];
      var rest := paths[1..];
      assert forall j :: 0 <= j < |rest| ==> rest[j] == paths[j + 1];
      assert check(p) != Escapes && (accept(p) <==> IsSupported(p) && check(p) == Verified) by {
        assert p == paths[0];
      }
      if accept(p) && p !in present {
        LoadLoopWithoutEscapes(present + [p], rest, check, accept);
      } else {
        LoadLoopWithoutEscapes(present, rest, check, accept);
      }
    }
  }

  /** An exception that escapes after an earlier file was appended leaves
      the lists out of step. Take an empty processor and two supported
      files, say "a.jpg" and "b.jpg": "a.jpg" verifies and is appended to
      `images` (and 0 to `rotations`), then opening "b.jpg" raises an
      exception the loop does not catch, so `_create_thumbnails` never
      runs and `thumbnails` and `original_sizes` stay empty while `images`
      holds one path. */
  lemma EscapeLeavesListsOutOfStep(a: string, b: string, check: string -> CheckOutcome)
    requires IsSupported(a) && IsSupported(b) && a != b
    requires check(a) == Verified && check(b) == Escapes
    ensures var run := LoadLoopAsWritten([], [a, b], check);
      run.escaped && run.appended == [a]
  {
    assert [a, b][1..] == [b];
    assert LoadLoopAsWritten([a], [b], check) == LoadRun([], true);
  }

  // ---------------------------------------------------------------------
  // Removal
  // ---------------------------------------------------------------------

  /** `del xs[d]` when `0 <= d < len(xs)`, nothing otherwise. */
  function DeleteAt<T>(xs: seq<T>, d: int): (r: seq<T>)
    ensures |r| == if 0 <= d < |xs| then |xs| - 1 else |xs|
  {
    if 0 <= d < |xs| then xs[..d] + xs[d + 1..] else xs
  }

  /** Deleting position `d` keeps everything before it in place and moves
      everything after it down by one; a position out of range deletes
      nothing. */
  lemma DeleteAtElements<T>(xs: seq<T>, d: int)
    ensures 0 <= d < |xs| ==>
      forall i :: 0 <= i < |xs| - 1 ==> DeleteAt(xs, d)[i] == if i < d then xs[i] else xs[i + 1]
    ensures !(0 <= d < |xs|) ==> DeleteAt(xs, d) == xs
  {
    if 0 <= d < |xs| {
      var before, after := xs[..d], xs[d + 1..];
      assert DeleteAt(xs, d) == before + after;
      assert forall i :: 0 <= i < |before| ==> before[i] == xs[i];
      assert forall i :: 0 <= i < |after| ==> after[i] == xs[d + 1 + i];
    }
  }

  /** The deletions of `ds`, performed in order. */
  function DeleteEach<T>(xs: seq<T>, ds: seq<int>): seq<T>
  {
    if ds == [] then xs else DeleteAt(DeleteEach(xs, ds[..|ds| - 1]), ds[|ds| - 1])
  }

  /** The elements of `xs` whose positions are not in `drop`, in their order. */
  function Keep<T>(xs: seq<T>, drop: set<int>): (r: seq<T>)
    ensures |r| <= |xs|
  {
    if xs == [] then []
    else Keep(xs[..|xs| - 1], drop) + (if |xs| - 1 in drop then [] else [xs[|xs| - 1]])
  }

  predicate Descending(s: seq<int>) {
    forall i, j :: 0 <= i < j < |s| ==> s[i] >= s[j]
  }

  predicate StrictlyDescending(s: seq<int>) {
    forall i, j :: 0 <= i < j < |s| ==> s[i] > s[j]
  }

  function InsertDescending(x: int, s: seq<int>): (r: seq<int>)
    ensures |r| == |s| + 1
  {
    if s == [] || x >= s[0] then [x] + s else [s[0]] + InsertDescending(x, s[1..])
  }

  /** `sorted(s, reverse=True)`. */
  function SortDescending(s: seq<int>): (r: seq<int>)
    ensures |r| == |s|
  {
    if s == [] then [] else InsertDescending(s[0], SortDescending(s[1..]))
  }

  lemma {:induction false} InsertDescendingElements(x: int, s: seq<int>)
    ensures multiset(InsertDescending(x, s)) == multiset(s) + multiset{x}
  {
    if s != [] && x < s[0] {
      InsertDescendingElements(x, s[1..]);
      assert s == [s[0]] + s[1..];
    }
  }

  /** Inserting below the head `h` yields only elements that are `x` or
      elements of the tail. */
  lemma InsertDescendingFrom(x: int, s: seq<int>)
    ensures forall y :: y in InsertDescending(x, s) ==> y == x || y in s
  {
    InsertDescendingElements(x, s);
    forall y | y in InsertDescending(x, s) ensures y == x || y in s {
      assert y in multiset(InsertDescending(x, s));
    }
  }

  lemma {:induction false} InsertDescendingSorted(x: int, s: seq<int>)
    requires Descending(s)
    ensures Descending(InsertDescending(x, s))
  {
    var r := InsertDescending(x, s);
    if s != [] && x < s[0] {
      var t := InsertDescending(x, s[1..]);
      InsertDescendingSorted(x, s[1..]);
      InsertDescendingFrom(x, s[1..]);
      assert r == [s[0]] + t;
      forall i, j | 0 <= i < j < |r| ensures r[i] >= r[j] {
        assert r[j] == t[j - 1] && r[j] in t;
        if i > 0 { assert r[i] == t[i - 1]; }
      }
    }
  }

  lemma {:induction false} InsertDescendingStrict(x: int, s: seq<int>)
    requires StrictlyDescending(s) && x !in s
    ensures StrictlyDescending(InsertDescending(x, s))
  {
    var r := InsertDescending(x, s);
    if s != [] && x < s[0] {
      var t := InsertDescending(x, s[1..]);
      InsertDescendingStrict(x, s[1..]);
      InsertDescendingFrom(x, s[1..]);
      assert r == [s[0]] + t;
      forall i, j | 0 <= i < j < |r| ensures r[i] > r[j] {
        assert r[j] == t[j - 1] && r[j] in t;
        if i > 0 { assert r[i] == t[i - 1]; }
      }
    }
  }

  /** Sorting in reverse is a permutation, ... */
  lemma {:induction false} SortDescendingElements(s: seq<int>)
    ensures multiset(SortDescending(s)) == multiset(s)
  {
    if s != [] {
      SortDescendingElements(s[1..]);
      InsertDescendingElements(s[0], SortDescending(s[1..]));
      assert s == [s[0]] + s[1..];
    }
  }

  /** ... into non-increasing order, ... */
  lemma {:induction false} SortDescendingOrdered(s: seq<int>)
    ensures Descending(SortDescending(s))
  {
    if s != [] {
      SortDescendingOrdered(s[1..]);
      InsertDescendingSorted(s[0], SortDescending(s[1..]));
    }
  }

  /** ... and of distinct indices into strictly decreasing order. */
  lemma {:induction false} SortDescendingStrictly(s: seq<int>)
    requires Distinct(s)
    ensures StrictlyDescending(SortDescending(s))
  {
    if s != [] {
      var rest := SortDescending(s[1..]);
      assert Distinct(s[1..]);
      SortDescendingStrictly(s[1..]);
      SortDescendingElements(s[1..]);
      assert s[0] !in s[1..];
      assert s[0] !in multiset(rest);
      InsertDescendingStrict(s[0], rest);
    }
  }

  /** Dropping positions outside the sequence changes nothing. */
  lemma {:induction false} KeepInRange<T>(xs: seq<T>, a: set<int>, b: set<int>)
    requires forall j :: 0 <= j < |xs| ==> (j in a <==> j in b)
    ensures Keep(xs, a) == Keep(xs, b)
  {
    if xs != [] {
      KeepInRange(xs[..|xs| - 1], a, b);
    }
  }

  /** With no position of `xs` dropped, everything is kept. */
  lemma {:induction false} KeepAll<T>(xs: seq<T>, drop: set<int>)
    requires forall j :: 0 <= j < |xs| ==> j !in drop
    ensures Keep(xs, drop) == xs
  {
    if xs != [] {
      KeepAll(xs[..|xs| - 1], drop);
    }
  }

  /** When the first `k` positions are kept, at least `k` elements survive. */
  lemma {:induction false} KeepLength<T>(xs: seq<T>, drop: set<int>, k: nat)
    requires k <= |xs|
    requires forall j :: 0 <= j < k ==> j !in drop
    ensures |Keep(xs, drop)| >= k
  {
    if |xs| == k {
      KeepAll(xs, drop);
    } else {
      KeepLength(xs[..|xs| - 1], drop, k);
    }
  }

  /** Deleting position `d` after every larger position has been dropped
      drops `d` as well. */
  lemma {:induction false} KeepThenDelete<T>(xs: seq<T>, drop: set<int>, d: int)
    requires forall j :: j in drop ==> j > d
    ensures DeleteAt(Keep(xs, drop), d) == Keep(xs, drop + {d})
  {
    if !(0 <= d < |xs|) {
      KeepInRange(xs, drop, drop + {d});
    } else {
      var n := |xs| - 1;
      var ys := xs[..n];
      if d == n {
        KeepAll(xs, drop);
        KeepAll(ys, drop + {d});
      } else {
        KeepThenDelete(ys, drop, d);
        KeepLength(ys, drop, d + 1);
        var a := Keep(ys, drop);
        var t := if n in drop then [] else [xs[n]];
        assert Keep(xs, drop) == a + t;
        assert DeleteAt(a + t, d) == DeleteAt(a, d) + t by {
          assert (a + t)[..d] == a[..d];
          assert (a + t)[d + 1..] == a[d + 1..] + t;
        }
      }
    }
  }

  /** The elements a sequence lists, as a set. */
  function Members<T(==)>(s: seq<T>): set<T>
  {
    set k | k in s
  }

  /** The last of strictly decreasing positions is below all the others. */
  lemma LastIsSmallest(ds: seq<int>, init: seq<int>, d: int)
    requires StrictlyDescending(ds) && ds == init + [d]
    ensures StrictlyDescending(init)
    ensures forall j :: j in Members(init) ==> j > d
  {
    forall i, j | 0 <= i < j < |init| ensures init[i] > init[j] {
      assert init[i] == ds[i] && init[j] == ds[j];
    }
    forall j | j in Members(init) ensures j > d {
      var k :| 0 <= k < |init| && init[k] == j;
      assert ds[k] == j && ds[|ds| - 1] == d;
    }
  }

  /** Deleting strictly decreasing positions one after another removes
      exactly those positions and keeps the rest in order. */
  lemma {:induction false} DeleteEachKeeps<T>(xs: seq<T>, ds: seq<int>)
    requires StrictlyDescending(ds)
    ensures DeleteEach(xs, ds) == Keep(xs, set j | j in ds)
  {
    if ds == [] {
      assert (set j | j in ds) == {};
      KeepAll(xs, {});
    } else {
      var init := ds[..|ds| - 1];
      var d := ds[|ds| - 1];
      DeleteEachKeeps(xs, init);
      LastIsSmallest(ds, init, d);
      assert Members(init) == (set j | j in init);
      KeepThenDelete(xs, Members(init), d);
      assert (set j | j in ds) == (set j | j in init) + {d} by {
        assert ds == init + [d];
      }
    }
  }

  /** Deleting one position keeps a duplicate-free sequence duplicate-free. */
  lemma DeleteAtDistinct<T>(xs: seq<T>, d: int)
    requires Distinct(xs)
    ensures Distinct(DeleteAt(xs, d))
    ensures forall y :: y in DeleteAt(xs, d) ==> y in xs
  {
    if 0 <= d < |xs| {
      var r := DeleteAt(xs, d);
      assert forall i :: 0 <= i < |r| ==> r[i] == xs[if i < d then i else i + 1];
    }
  }

  // ---------------------------------------------------------------------
  // The image collection
  // ---------------------------------------------------------------------

  class ImageProcessor {
    var images: seq<string>
    var thumbnails: seq<Thumbnail>
    var rotations: seq<int>
    var originalSizes: seq<Size>

    /** The four lists stay aligned, paths are not repeated and every
        rotation is a quarter-turn angle. */
    ghost predicate Valid()
      reads this
    {
      && |thumbnails| == |images|
      && |rotations| == |images|
      && |originalSizes| == |images|
      && Distinct(images)
      && forall r :: r in rotations ==> IsAngle(r)
    }

    constructor()
      ensures Valid()
      ensures images == [] && thumbnails == [] && rotations == [] && originalSizes == []
    {
      images, thumbnails, rotations, originalSizes := [], [], [], [];
    }

    /** `load_images`: appends each supported, valid, not yet held path with
        rotation 0 and returns the appended paths; thumbnails are rebuilt
        when anything was appended. */
    method LoadImages(filePaths: seq<string>, disk: Disk) returns (loaded: seq<string>)
      requires Valid()
      modifies this
      ensures Valid()
      ensures loaded == Admitted(old(images), filePaths, Acceptable(disk))
      ensures images == old(images) + loaded
      ensures rotations == old(rotations) + Zeros(|loaded|)
      ensures loaded != [] ==> thumbnails == Thumbnails(images, rotations, disk) && originalSizes == Sizes(images, disk)
      ensures loaded == [] ==> thumbnails == old(thumbnails) && originalSizes == old(originalSizes)
    {
      loaded := AppendAccepted(filePaths, Acceptable(disk));
      if loaded != [] {
        CreateThumbnails(disk);
      } else {
        assert images == old(images) + [] == old(images);
      }
    }

    /** The loop of `load_images`: every path that passes `accept` (for the
        loader, the suffix check and then opening and verifying the file)
        and is not yet held is appended with rotation 0; a refused path is
        skipped. */
    method AppendAccepted(filePaths: seq<string>, accept: string -> bool) returns (loaded: seq<string>)
      requires Valid()
      modifies this
      ensures |rotations| == |images| && Distinct(images)
      ensures forall r :: r in rotations ==> IsAngle(r)
      ensures loaded == Admitted(old(images), filePaths, accept)
      ensures images == old(images) + loaded
      ensures rotations == old(rotations) + Zeros(|loaded|)
      ensures thumbnails == old(thumbnails) && originalSizes == old(originalSizes)
    {
      loaded := [];
      ghost var goal := Admitted(images, filePaths, accept);
      var i := 0;
      while i < |filePaths|
        invariant 0 <= i <= |filePaths|
        invariant images == old(images) + loaded
        invariant rotations == old(rotations) + Zeros(|loaded|)
        invariant loaded + Admitted(images, filePaths[i..], accept) == goal
        invariant Distinct(images)
        invariant forall r :: r in rotations ==> IsAngle(r)
        invariant thumbnails == old(thumbnails) && originalSizes == old(originalSizes)
      {
        var path := filePaths[i];
        AdmittedStep(images, filePaths, accept, i);
        if accept(path) && path !in images {
          DistinctAppend(images, path);
          ghost var rest := Admitted(images + [path], filePaths[i + 1..], accept);
          assert loaded + ([path] + rest) == (loaded + [path]) + rest;
          images := images + [path];
          rotations := rotations + [0];
          loaded := loaded + [path];
        }
        i := i + 1;
      }
      assert filePaths[i..] == [];
    }

    /** `_create_thumbnails`: one thumbnail and one size per image, the
        placeholder pair for an image the library cannot handle. */
    method CreateThumbnails(disk: Disk)
      requires |rotations| == |images|
      modifies this
      ensures images == old(images) && rotations == old(rotations)
      ensures thumbnails == Thumbnails(images, rotations, disk)
      ensures originalSizes == Sizes(images, disk)
    {
      thumbnails := [];
      originalSizes := [];
      var i := 0;
      while i < |images|
        invariant 0 <= i <= |images|
        invariant images == old(images) && rotations == old(rotations)
        invariant |thumbnails| == i && |originalSizes| == i
        invariant forall j :: 0 <= j < i ==>
          thumbnails[j] == ThumbnailFor(images[j], rotations[j], disk(images[j]))
        invariant forall j :: 0 <= j < i ==> originalSizes[j] == SizeFor(disk(images[j]))
      {
        var pic := disk(images[i]);
        match pic.header {
        case None =>
          thumbnails := thumbnails + [Placeholder];
          originalSizes := originalSizes + [PlaceholderSize];
        case Some(size) =>
          if pic.renders {
            thumbnails := thumbnails + [Rendered(images[i], rotations[i])];
            originalSizes := originalSizes + [size];
          } else {
            thumbnails := thumbnails + [Placeholder];
            originalSizes := originalSizes + [PlaceholderSize];
          }
        }
        i := i + 1;
      }
    }

    /** `rotate_image`: a quarter turn of one image and fresh thumbnails; an
        index outside the list is refused and changes nothing. */
    method RotateImage(index: int, disk: Disk) returns (ok: bool)
      requires Valid()
      modifies this
      ensures Valid()
      ensures ok <==> 0 <= index < |old(images)|
      ensures images == old(images)
      ensures ok ==> rotations == old(rotations)[index := NextRotation(old(rotations)[index])]
      ensures ok ==> thumbnails == Thumbnails(images, rotations, disk) && originalSizes == Sizes(images, disk)
      ensures !ok ==> rotations == old(rotations) && thumbnails == old(thumbnails) && originalSizes == old(originalSizes)
    {
      if 0 <= index < |images| {
        assert rotations[index] in rotations;
        rotations := rotations[index := NextRotation(rotations[index])];
        CreateThumbnails(disk);
        forall r | r in rotations ensures IsAngle(r) {
          var k :| 0 <= k < |rotations| && rotations[k] == r;
          if k != index { assert old(rotations)[k] in old(rotations); }
        }
        return true;
      }
      return false;
    }

    /** `remove_images`: deletes the given positions from all four lists in
        decreasing order, skipping positions outside the lists. For distinct
        positions this removes exactly those positions. */
    method RemoveImages(indices: seq<int>)
      requires Valid()
      modifies this
      ensures Valid()
      ensures images == DeleteEach(old(images), SortDescending(indices))
      ensures thumbnails == DeleteEach(old(thumbnails), SortDescending(indices))
      ensures rotations == DeleteEach(old(rotations), SortDescending(indices))
      ensures originalSizes == DeleteEach(old(originalSizes), SortDescending(indices))
      ensures Distinct(indices) ==>
        var drop := set j | j in indices;
        && images == Keep(old(images), drop)
        && thumbnails == Keep(old(thumbnails), drop)
        && rotations == Keep(old(rotations), drop)
        && originalSizes == Keep(old(originalSizes), drop)
    {
      var order := SortDescending(indices);
      var k := 0;
      while k < |order|
        invariant 0 <= k <= |order|
        invariant Valid()
        invariant images == DeleteEach(old(images), order[..k])
        invariant thumbnails == DeleteEach(old(thumbnails), order[..k])
        invariant rotations == DeleteEach(old(rotations), order[..k])
        invariant originalSizes == DeleteEach(old(originalSizes), order[..k])
      {
        var idx := order[k];
        assert order[..k + 1][..k] == order[..k];
        if 0 <= idx < |images| {
          DeleteAtDistinct(images, idx);
          assert forall r :: r in DeleteAt(rotations, idx) ==> r in rotations;
          images := images[..idx] + images[idx + 1..];
          thumbnails := thumbnails[..idx] + thumbnails[idx + 1..];
          rotations := rotations[..idx] + rotations[idx + 1..];
          originalSizes := originalSizes[..idx] + originalSizes[idx + 1..];
        }
        k := k + 1;
      }
      assert order[..k] == order;
      if Distinct(indices) {
        SortDescendingElements(indices);
        SortDescendingStrictly(indices);
        assert (set j | j in order) == (set j | j in indices) by {
          forall j ensures j in order <==> j in indices {
            assert j in order <==> j in multiset(order);
          }
        }
        DeleteEachKeeps(old(images), order);
        DeleteEachKeeps(old(thumbnails), order);
        DeleteEachKeeps(old(rotations), order);
        DeleteEachKeeps(old(originalSizes), order);
      }
    }

    /** `clear_all`: all four lists empty. */
    method ClearAll()
      modifies this
      ensures Valid()
      ensures images == [] && thumbnails == [] && rotations == [] && originalSizes == []
    {
      images, thumbnails, rotations, originalSizes := [], [], [], [];
    }

    /** The number of images, which a valid processor also holds of
        thumbnails, rotations and sizes. */
    function GetImageCount(): (n: nat)
      reads this
      ensures Valid() ==> n == |thumbnails| == |rotations| == |originalSizes|
    {
      |images|
    }

    /** A copy of the paths: in a valid processor no path appears twice
        and there is one per thumbnail. */
    function GetImagePaths(): (paths: seq<string>)
      reads this
      ensures paths == images
      ensures Valid() ==> Distinct(paths) && |paths| == |thumbnails|
    {
      images
    }

    /** The thumbnail at `index`, None outside the list. */
    function GetThumbnail(index: int): (t: Option<Thumbnail>)
      reads this
      ensures t.Some? <==> 0 <= index < |thumbnails|
      ensures Valid() ==> (t.Some? <==> 0 <= index < |images|)
      ensures t.Some? ==> t.value == thumbnails[index]
    {
      if 0 <= index < |thumbnails| then Some(thumbnails[index]) else None
    }

    /** The rotation at `index`, 0 outside the list; always a quarter-turn angle. */
    function GetRotation(index: int): (r: int)
      reads this
      ensures Valid() ==> IsAngle(r)
      ensures 0 <= index < |rotations| ==> r == rotations[index]
      ensures !(0 <= index < |rotations|) ==> r == 0
    {
      if 0 <= index < |rotations| then
        assert rotations[index] in rotations;
        rotations[index]
      else 0
    }

    /** The recorded size at `index`, 100×100 outside the list. */
    function GetOriginalSize(index: int): (s: Size)
      reads this
      ensures 0 <= index < |originalSizes| ==> s == originalSizes[index]
      ensures !(0 <= index < |originalSizes|) ==> s == PlaceholderSize
    {
      if 0 <= index < |originalSizes| then originalSizes[index] else PlaceholderSize
    }

    /** Wider than tall; the 100×100 default is not landscape. */
    function IsLandscape(index: int): (b: bool)
      reads this
      ensures b <==> GetOriginalSize(index).width > GetOriginalSize(index).height
      ensures !(0 <= index < |originalSizes|) ==> !b
    {
      var size := GetOriginalSize(index);
      size.width > size.height
    }
  }
}
