/** Snapshot recording: an image and its sidecar per alert, with the oldest pruned. */
module Snapshot {
  import opened Common
  import opened Models
  import opened Sorting
  import opened SnapshotNames

  predicate IsImage(name: string) {
    |name| >= 4 && name[|name| - 4..] == ".jpg"
  }

  /** The name with its suffix replaced. A bare ".jpg" has no suffix to replace. */
  function Sidecar(name: string): string
    requires IsImage(name)
  {
    if |name| == 4 then ".jpg.json" else name[..|name| - 4] + ".json"
  }

  ghost function Images(files: set<string>): set<string> {
    set f | f in files && IsImage(f)
  }

  ghost function Greater(files: set<string>, name: string): set<string> {
    set g | g in Images(files) && Less(name, g)
  }

  /** The images with fewer than `n` greater ones. */
  ghost function Kept(files: set<string>, n: nat): set<string> {
    set f | f in Images(files) && |Greater(files, f)| < n
  }

  ghost function Gone(files: set<string>, n: nat): set<string> {
    Images(files) - Kept(files, n)
  }

  ghost function Lesser(files: set<string>, name: string): set<string> {
    set g | g in Images(files) && Less(g, name)
  }

  /** The images with fewer than `k` lesser ones. */
  ghost function Lowest(files: set<string>, k: nat): set<string> {
    set f | f in Images(files) && |Lesser(files, f)| < k
  }

  /** How deleting the excess images, lowest first, each before its sidecar, goes: to its end, or up to
      the image or the sidecar that cannot be deleted. */
  datatype Deletion = AllDone | ImageStuck(at: nat) | SidecarStuck(at: nat)

  /** Without the images that are not kept, and without their sidecars, as far as the deletion gets. */
  ghost function Pruned(files: set<string>, n: nat, deletion: Deletion): set<string> {
    var gone := Gone(files, n);
    match deletion
    case AllDone => files - gone - Sidecars(gone)
    case ImageStuck(k) => files - gone * Lowest(files, k) - Sidecars(gone * Lowest(files, k))
    case SidecarStuck(k) => files - gone * Lowest(files, k + 1) - Sidecars(gone * Lowest(files, k))
  }

  ghost function Sidecars(images: set<string>): set<string> {
    set f | f in images && IsImage(f) :: Sidecar(f)
  }

  datatype ImageWrite = Written | ReturnedFalse | RaisedOSError

  class SnapshotHandler {
    const maxCount: nat
    /** The names in the snapshot directory. */
    var files: set<string>

    constructor (maxCount: nat, files: set<string>)
      ensures this.maxCount == maxCount && this.files == files
    {
      this.maxCount := maxCount;
      this.files := files;
    }

    /** With both writes done the directory is pruned, so at most `maxCount` images remain unless a
        deletion fails; the new one is then among them exactly when fewer than `maxCount` names are
        greater. Without a frame, or when the image is not written, nothing changes; when only the
        sidecar fails the image stays, unpruned. */
    method Trigger(frame: Option<Frame>, now: Timestamp, frameId: nat,
                   image: ImageWrite, sidecarRaises: bool, deletion: Deletion)
      modifies this
      ensures var name := ImageName(now, frameId);
              && IsImage(name)
              && (frame.None? || !image.Written? ==> files == old(files))
              && (frame.Some? && image.Written? && sidecarRaises ==> files == old(files) + {name})
              && (frame.Some? && image.Written? && !sidecarRaises ==>
                    && files == Pruned(old(files) + {name, Sidecar(name)}, maxCount, deletion)
                    && (deletion.AllDone? ==>
                          && |Images(files)| <= maxCount
                          && (name in files <==> |Greater(old(files) + {name, Sidecar(name)}, name)| < maxCount)))
    {
      ImageNameIsImage(now, frameId);
      if frame.None? {
        return;
      }
      var name := ImageName(now, frameId);
      if image.RaisedOSError? || image.ReturnedFalse? {
        return;
      }
      files := files + {name};
      if sidecarRaises {
        return;
      }
      files := files + {Sidecar(name)};
      ghost var all := files;
      assert all == old(files) + {name, Sidecar(name)};
      EnforceMaxCount(deletion);
      ImageStays(all, name, maxCount);
    }

    /** The directory listing, in no particular order. */
    method Glob() returns (names: seq<string>)
      ensures Distinct(names)
      ensures forall f :: f in names <==> f in Images(files)
    {
      names := [];
      var rest := set f | f in files && IsImage(f);
      while rest != {}
        invariant Distinct(names)
        invariant rest <= Images(files)
        invariant forall f :: f in names <==> f in Images(files) - rest
        decreases rest
      {
        var f :| f in rest;
        assert f !in names;
        names := names + [f];
        rest := rest - {f};
      }
    }

    method EnforceMaxCount(deletion: Deletion)
      modifies this
      ensures files == Pruned(old(files), maxCount, deletion)
      ensures deletion.AllDone? ==> |Images(files)| <= maxCount
    {
      var listing := Glob();
      var images := Sorted(listing, LessOrEqual);
      SortedIsAscending(listing);
      SortedDistinct(listing, LessOrEqual);
      var excess := Max(|images| - maxCount, 0);
      KeptOfAscending(files, images, maxCount);
      PrunedByList(files, images, maxCount, deletion);
      PrunedImages(files, maxCount);
      DistinctCount(images[excess..], Kept(files, maxCount));
      DeleteFirst(images, excess, deletion);
    }

    /** The loop over the excess images: it ends at the first deletion that raises. */
    method DeleteFirst(images: seq<string>, excess: nat, deletion: Deletion)
      requires excess <= |images| && forall f :: f in images ==> IsImage(f)
      modifies this
      ensures files == old(files) - Entries(images[..ImagesDeleted(deletion, excess)])
                                  - Sidecars(Entries(images[..SidecarsDeleted(deletion, excess)]))
    {
      for k := 0 to excess
        invariant files == old(files) - Entries(images[..k]) - Sidecars(Entries(images[..k]))
        invariant deletion.AllDone? || deletion.at >= k
      {
        assert images[..k + 1] == images[..k] + [images[k]];
        assert images[k] in images;
        if deletion.ImageStuck? && deletion.at == k {
          return;
        }
        files := files - {images[k]};
        if deletion.SidecarStuck? && deletion.at == k {
          return;
        }
        files := files - {Sidecar(images[k])};
        SidecarsGrow(Entries(images[..k]), images[k]);
      }
    }
  }

  /** How many of `excess` images, and of their sidecars, are deleted. */
  function ImagesDeleted(deletion: Deletion, excess: nat): (k: nat)
    ensures k <= excess
  {
    match deletion
    case AllDone => excess
    case ImageStuck(at) => if at < excess then at else excess
    case SidecarStuck(at) => if at < excess then at + 1 else excess
  }

  function SidecarsDeleted(deletion: Deletion, excess: nat): (k: nat)
    ensures k <= excess
  {
    if deletion.AllDone? || deletion.at >= excess then excess else deletion.at
  }

  ghost function Entries(s: seq<string>): set<string> {
    set f | f in s
  }

  lemma SidecarsGrow(images: set<string>, name: string)
    requires IsImage(name)
    ensures Sidecars(images + {name}) == Sidecars(images) + {Sidecar(name)}
  {
  }

  lemma ImageNameIsImage(now: Timestamp, frameId: nat)
    ensures IsImage(ImageName(now, frameId))
    ensures |ImageName(now, frameId)| > 4
  {
  }

  lemma SidecarIsNoImage(name: string)
    requires IsImage(name)
    ensures !IsImage(Sidecar(name))
  {
    var s := Sidecar(name);
    assert s[|s| - 1] == 'n';
    assert s[|s| - 4..][3] == s[|s| - 1];
  }

  /** Pruning removes an image only by its rank. */
  lemma ImageStays(files: set<string>, name: string, n: nat)
    requires name in files && IsImage(name)
    ensures name in Pruned(files, n, AllDone) <==> |Greater(files, name)| < n
  {
    if name in Sidecars(Images(files) - Kept(files, n)) {
      var i :| i in Images(files) - Kept(files, n) && IsImage(i) && Sidecar(i) == name;
      SidecarIsNoImage(i);
    }
  }

  lemma PrunedImages(files: set<string>, n: nat)
    ensures Images(Pruned(files, n, AllDone)) == Kept(files, n)
  {
    forall f | f in Images(files)
      ensures f in Pruned(files, n, AllDone) <==> f in Kept(files, n)
    {
      ImageStays(files, f, n);
    }
  }

  ghost predicate Ascending(s: seq<string>) {
    forall i, j :: 0 <= i < j < |s| ==> Less(s[i], s[j])
  }

  lemma SortedIsAscending(s: seq<string>)
    requires Distinct(s)
    ensures Ascending(Sorted(s, LessOrEqual))
  {
    assert TotalPreorder(LessOrEqual) by {
      forall a, b
        ensures LessOrEqual(a, b) || LessOrEqual(b, a)
      {
        OrderBasics(a, b);
      }
      forall a, b, c | LessOrEqual(a, b) && LessOrEqual(b, c)
        ensures LessOrEqual(a, c)
      {
        OrderTransitive(a, b, c);
      }
    }
    SortedCorrect(s, LessOrEqual);
    SortedDistinct(s, LessOrEqual);
    var t := Sorted(s, LessOrEqual);
    forall i, j | 0 <= i < j < |t|
      ensures Less(t[i], t[j])
    {
      OrderBasics(t[i], t[j]);
    }
  }

  lemma AscendingFacts(s: seq<string>)
    requires Ascending(s)
    ensures Distinct(s)
    ensures forall i, j :: 0 <= i < j < |s| ==> s[i] != s[j] && !Less(s[j], s[i])
  {
    forall i, j | 0 <= i < j < |s|
      ensures s[i] != s[j] && !Less(s[j], s[i])
    {
      OrderBasics(s[i], s[j]);
    }
  }

  lemma KeptByRank(files: set<string>, s: seq<string>, n: nat, i: nat)
    requires Ascending(s) && Entries(s) == Images(files) && i < |s|
    ensures s[i] in Kept(files, n) <==> i >= |s| - n
  {
    AscendingFacts(s);
    RankOf(files, s, i);
    assert s[i] in Entries(s);
  }

  /** Two parts of a list cover it. */
  lemma SplitEntries(s: seq<string>, cut: nat)
    requires cut <= |s| && Distinct(s)
    ensures Entries(s[..cut]) + Entries(s[cut..]) == Entries(s) && Entries(s[..cut]) !! Entries(s[cut..])
  {
  }

  /** Listed in ascending order, the kept images are the last `n`. */
  lemma KeptOfAscending(files: set<string>, s: seq<string>, n: nat)
    requires Ascending(s) && Entries(s) == Images(files)
    ensures Kept(files, n) == Entries(s[Max(|s| - n, 0)..])
    ensures Images(files) - Kept(files, n) == Entries(s[..Max(|s| - n, 0)])
    ensures Distinct(s)
  {
    var cut := Max(|s| - n, 0);
    AscendingFacts(s);
    SplitEntries(s, cut);
    forall f | f in Entries(s[cut..])
      ensures f in Kept(files, n)
    {
      var i :| cut <= i < |s| && s[i] == f;
      KeptByRank(files, s, n, i);
    }
    forall f | f in Entries(s[..cut])
      ensures f !in Kept(files, n)
    {
      var i :| 0 <= i < cut && s[i] == f;
      KeptByRank(files, s, n, i);
    }
    assert Kept(files, n) <= Entries(s);
  }

  lemma RankOf(files: set<string>, s: seq<string>, i: nat)
    requires Ascending(s) && Entries(s) == Images(files) && i < |s|
    requires forall a, b :: 0 <= a < b < |s| ==> s[a] != s[b] && !Less(s[b], s[a])
    ensures |Greater(files, s[i])| == |s| - 1 - i
  {
    var above := s[i + 1..];
    OrderBasics(s[i], s[i]);
    forall g
      ensures g in Greater(files, s[i]) <==> g in above
    {
      if g in Greater(files, s[i]) {
        assert g in Entries(s);
        var j :| 0 <= j < |s| && s[j] == g;
        assert j > i;
        assert above[j - i - 1] == g;
      }
      if g in above {
        var j :| 0 <= j < |above| && above[j] == g;
        assert g == s[i + 1 + j];
        assert g in Entries(s);
      }
    }
    DistinctCount(above, Greater(files, s[i]));
  }

  lemma RankFromBelow(files: set<string>, s: seq<string>, i: nat)
    requires Ascending(s) && Entries(s) == Images(files) && i < |s|
    requires forall a, b :: 0 <= a < b < |s| ==> s[a] != s[b] && !Less(s[b], s[a])
    ensures |Lesser(files, s[i])| == i
  {
    var below := s[..i];
    OrderBasics(s[i], s[i]);
    forall g
      ensures g in Lesser(files, s[i]) <==> g in below
    {
      if g in Lesser(files, s[i]) {
        assert g in Entries(s);
        var j :| 0 <= j < |s| && s[j] == g;
        assert j < i && below[j] == g;
      }
      if g in below {
        var j :| 0 <= j < |below| && below[j] == g;
        assert g == s[j] && g in Entries(s);
      }
    }
    DistinctCount(below, Lesser(files, s[i]));
  }

  /** Listed in ascending order, the first `k` of the images to be deleted. */
  lemma LowestOfGone(files: set<string>, s: seq<string>, n: nat, k: nat)
    requires Ascending(s) && Entries(s) == Images(files)
    ensures var excess := Max(|s| - n, 0);
            Gone(files, n) * Lowest(files, k) == Entries(s[..if k < excess then k else excess])
  {
    var excess := Max(|s| - n, 0);
    var cut := if k < excess then k else excess;
    AscendingFacts(s);
    KeptOfAscending(files, s, n);
    forall f | f in Entries(s[..excess])
      ensures f in Lowest(files, k) <==> f in Entries(s[..cut])
    {
      var i :| 0 <= i < excess && s[i] == f;
      RankFromBelow(files, s, i);
      assert f in Entries(s);
      if i < cut {
        assert s[..cut][i] == f;
      }
    }
  }

  lemma PrunedByList(files: set<string>, s: seq<string>, n: nat, deletion: Deletion)
    requires Ascending(s) && Entries(s) == Images(files)
    ensures var excess := Max(|s| - n, 0);
            Pruned(files, n, deletion)
            == files - Entries(s[..ImagesDeleted(deletion, excess)])
                     - Sidecars(Entries(s[..SidecarsDeleted(deletion, excess)]))
  {
    KeptOfAscending(files, s, n);
    if !deletion.AllDone? {
      LowestOfGone(files, s, n, deletion.at);
      LowestOfGone(files, s, n, deletion.at + 1);
    }
  }

  ghost predicate ProperName(name: string) {
    IsImage(name) && |name| > 4
  }

  /** A snapshot's two files have one stem. */
  lemma OneStem(now: Timestamp, frameId: nat)
    ensures var stem := Stamp(now) + "_frame" + Decimal(frameId);
            && ImageName(now, frameId) == stem + ".jpg" && IsImage(stem + ".jpg")
            && Sidecar(ImageName(now, frameId)) == stem + ".json"
  {
    var stem := Stamp(now) + "_frame" + Decimal(frameId);
    assert ImageName(now, frameId) == stem + ".jpg";
    ImageNameIsImage(now, frameId);
    assert (stem + ".jpg")[..|stem + ".jpg"| - 4] == stem;
  }

  lemma SidecarsApart(a: string, b: string)
    requires ProperName(a) && ProperName(b) && Sidecar(a) == Sidecar(b)
    ensures a == b
  {
    var s, t := Sidecar(a), Sidecar(b);
    assert s[..|s| - 5] == a[..|a| - 4] && t[..|t| - 5] == b[..|b| - 4];
    assert a == a[..|a| - 4] + ".jpg" && b == b[..|b| - 4] + ".jpg";
  }
}
