/** What the snapshot directory holds after any run of alerts, whatever writes and deletions fail. */
module SnapshotRuns {
  import opened Common
  import opened Models
  import opened Sorting
  import opened SnapshotNames
  import opened Snapshot

  // ----- Ranks -----

  lemma {:induction false} Listing(images: set<string>) returns (s: seq<string>)
    requires forall f :: f in images ==> IsImage(f)
    ensures Distinct(s) && Entries(s) == images
  {
    s := [];
    if f :| f in images {
      var rest := Listing(images - {f});
      assert f !in Entries(rest);
      s := rest + [f];
      assert Entries(s) == Entries(rest) + {f};
    } else {
      assert images == {};
    }
  }

  lemma KeptCount(files: set<string>, n: nat)
    ensures |Kept(files, n)| == if |Images(files)| < n then |Images(files)| else n
  {
    var s := Ranked(files);
    KeptOfAscending(files, s, n);
    DistinctCount(s, Images(files));
    DistinctCount(s[Max(|s| - n, 0)..], Kept(files, n));
  }

  lemma LessTransitive(a: string, b: string, c: string)
    requires Less(a, b) && Less(b, c)
    ensures Less(a, c)
  {
    OrderBasics(a, b);
    OrderBasics(b, c);
    OrderBasics(a, c);
    OrderTransitive(a, b, c);
  }

  /** A greater image has fewer greater ones, so all images greater than a kept one are kept. */
  lemma KeptAbove(files: set<string>, f: string, n: nat)
    requires f in Kept(files, n)
    ensures Greater(files, f) <= Kept(files, n)
  {
    forall g | g in Greater(files, f)
      ensures g in Kept(files, n)
    {
      forall h | h in Greater(files, g)
        ensures h in Greater(files, f)
      {
        LessTransitive(f, g, h);
      }
      Fewer(Greater(files, g), Greater(files, f));
    }
  }

  /** An image that is not kept has all the kept ones above it, also when other images are taken away. */
  lemma DroppedIsBelow(all: set<string>, some: set<string>, n: nat, f: string)
    requires Images(some) <= Images(all) && Kept(all, n) <= some
    requires f in Images(some) && f !in Kept(all, n)
    ensures |Greater(some, f)| >= n
  {
    forall h | h in Kept(all, n)
      ensures h in Greater(some, f)
    {
      OrderBasics(f, h);
      OrderBasics(h, f);
      if Less(h, f) {
        KeptAbove(all, h, n);
      }
    }
    Fewer(Kept(all, n), Greater(some, f));
    Fewer(Greater(all, f), Images(all));
    KeptCount(all, n);
  }

  /** Taking away images that are not kept does not change which are. */
  lemma KeptUnchanged(all: set<string>, some: set<string>, n: nat)
    requires Images(some) <= Images(all) && Kept(all, n) <= some
    ensures Kept(some, n) == Kept(all, n)
  {
    forall f | f in Images(some)
      ensures f in Kept(some, n) <==> f in Kept(all, n)
    {
      if f in Kept(all, n) {
        KeptAbove(all, f, n);
        assert Greater(some, f) == Greater(all, f);
      } else {
        DroppedIsBelow(all, some, n, f);
      }
    }
  }

  /** Kept after one more name: kept before, or the new one. */
  lemma KeptBefore(before: set<string>, after: set<string>, x: string, n: nat)
    requires Images(after) == Images(before) + {x}
    ensures Kept(after, n) <= Kept(before, n) + {x}
  {
    forall f | f in Kept(after, n) && f != x
      ensures f in Kept(before, n)
    {
      Fewer(Greater(before, f), Greater(after, f));
    }
  }

  /** One more name is ranked alike among some images and among all, when the kept ones are among the
      some. */
  lemma KeptGrows(all: set<string>, some: set<string>, all': set<string>, some': set<string>, x: string, n: nat)
    requires Images(some) <= Images(all) && Kept(some, n) == Kept(all, n)
    requires Images(all') == Images(all) + {x} && Images(some') == Images(some) + {x}
    ensures Kept(some', n) == Kept(all', n)
  {
    KeptBefore(all, all', x, n);
    assert x in Images(some');
    KeptUnchanged(all', some', n);
  }

  // ----- Pruning -----

  /** Pruning, however far it gets, only takes away, and nothing that is kept. */
  lemma PruningKeeps(files: set<string>, n: nat, deletion: Deletion)
    ensures Pruned(files, n, deletion) <= files
    ensures Kept(files, n) <= Pruned(files, n, deletion)
    ensures Kept(Pruned(files, n, deletion), n) == Kept(files, n)
  {
    forall f | f in Kept(files, n)
      ensures f in Pruned(files, n, deletion)
    {
      NoSidecar(files, f);
    }
    KeptUnchanged(files, Pruned(files, n, deletion), n);
  }

  lemma NoSidecar(files: set<string>, f: string)
    requires IsImage(f)
    ensures f !in Sidecars(files)
  {
    if f in Sidecars(files) {
      var i :| i in files && IsImage(i) && Sidecar(i) == f;
      SidecarIsNoImage(i);
    }
  }

  /** Pruning takes the sidecar of no other image than those it is to delete. */
  lemma SidecarStays(files: set<string>, n: nat, deletion: Deletion, f: string)
    requires forall g :: g in Images(files) ==> ProperName(g)
    requires ProperName(f) && f !in Gone(files, n)
    ensures Sidecar(f) in Pruned(files, n, deletion) <==> Sidecar(f) in files
  {
    SidecarIsNoImage(f);
    forall g | g in Gone(files, n)
      ensures Sidecar(g) != Sidecar(f)
    {
      if Sidecar(g) == Sidecar(f) {
        SidecarsApart(g, f);
      }
    }
    assert Sidecar(f) !in Sidecars(Gone(files, n));
    assert Sidecar(f) !in Gone(files, n);
  }

  /** A deletion that fails at place `at`: the lowest images before it are gone, each with its sidecar, all
      that are gone are less than all that are left, and when it is a sidecar that cannot be deleted its
      image is gone as well. */
  lemma StuckPruning(files: set<string>, n: nat, deletion: Deletion)
    requires !deletion.AllDone?
    ensures var left := Pruned(files, n, deletion);
            var excess := Max(|Images(files)| - n, 0);
            var stop := deletion.at + if deletion.SidecarStuck? then 1 else 0;
            && |Images(left)| == |Images(files)| - (if stop < excess then stop else excess)
            && forall f, g :: f in Images(files) - left && g in Images(left) ==> Less(f, g)
  {
    var s := Ranked(files);
    var k := ImagesDeleted(deletion, Max(|s| - n, 0));
    LeftOfRanked(files, s, n, deletion);
    AscendingFacts(s);
    DistinctCount(s, Images(files));
    DistinctCount(s[k..], Entries(s[k..]));
    FirstAreLess(s, k);
  }

  lemma FirstAreLess(s: seq<string>, k: nat)
    requires Ascending(s) && k <= |s|
    ensures forall f, g :: f in Entries(s[..k]) && g in Entries(s[k..]) ==> Less(f, g)
  {
    forall f, g | f in Entries(s[..k]) && g in Entries(s[k..])
      ensures Less(f, g)
    {
      var i :| 0 <= i < k && s[..k][i] == f;
      var j :| 0 <= j < |s| - k && s[k..][j] == g;
      assert s[i] == f && s[k + j] == g;
    }
  }

  lemma Ranked(files: set<string>) returns (s: seq<string>)
    ensures Ascending(s) && Entries(s) == Images(files)
  {
    var listing := Listing(Images(files));
    s := Sorted(listing, LessOrEqual);
    SortedIsAscending(listing);
    SortedDistinct(listing, LessOrEqual);
  }

  lemma LeftOfRanked(files: set<string>, s: seq<string>, n: nat, deletion: Deletion)
    requires Ascending(s) && Entries(s) == Images(files)
    ensures var k := ImagesDeleted(deletion, Max(|s| - n, 0));
            && Images(Pruned(files, n, deletion)) == Entries(s[k..])
            && Images(files) - Pruned(files, n, deletion) == Entries(s[..k])
  {
    var k := ImagesDeleted(deletion, Max(|s| - n, 0));
    var sidecars := Entries(s[..SidecarsDeleted(deletion, Max(|s| - n, 0))]);
    PrunedByList(files, s, n, deletion);
    AscendingFacts(s);
    SplitEntries(s, k);
    forall f | f in Images(files)
      ensures f !in Sidecars(sidecars)
    {
      NoSidecar(sidecars, f);
    }
  }

  /** And the sidecars: those of the lowest images before that place are gone, every other stays. */
  lemma StuckSidecars(files: set<string>, n: nat, deletion: Deletion, f: string)
    requires !deletion.AllDone? && AllProper(Images(files)) && f in Images(files) && Sidecar(f) in files
    ensures var excess := Max(|Images(files)| - n, 0);
            Sidecar(f) in Pruned(files, n, deletion)
            <==> |Lesser(files, f)| >= deletion.at || |Lesser(files, f)| >= excess
  {
    var gone := Gone(files, n) * Lowest(files, deletion.at);
    SidecarIsNoImage(f);
    GoneByRank(files, n, f);
    forall g | g in gone && Sidecar(g) == Sidecar(f)
      ensures g == f
    {
      SidecarsApart(g, f);
    }
    assert Sidecar(f) in Sidecars(gone) <==> f in gone;
  }

  lemma GoneByRank(files: set<string>, n: nat, f: string)
    requires f in Images(files)
    ensures f in Gone(files, n) <==> |Lesser(files, f)| < Max(|Images(files)| - n, 0)
  {
    var s := Ranked(files);
    AscendingFacts(s);
    DistinctCount(s, Images(files));
    assert f in Entries(s);
    var i :| 0 <= i < |s| && s[i] == f;
    RankFromBelow(files, s, i);
    KeptByRank(files, s, n, i);
  }

  // ----- Runs -----

  /** One alert at the handler: its stamp and frame, and what the file system does. */
  datatype Shot = Shot(
    at: Timestamp, frameId: nat, frame: Option<Frame>,
    image: ImageWrite, sidecarRaises: bool, deletion: Deletion)

  function Name(x: Shot): (name: string)
    ensures ProperName(name)
  {
    ImageNameIsImage(x.at, x.frameId);
    ImageName(x.at, x.frameId)
  }

  /** The image was written. */
  predicate Writes(x: Shot) {
    x.frame.Some? && x.image.Written?
  }

  /** Image and sidecar were written, and the pruning that follows ran to its end. */
  predicate Completes(x: Shot) {
    Writes(x) && !x.sidecarRaises && x.deletion.AllDone?
  }

  ghost function AfterShot(files: set<string>, x: Shot, n: nat): set<string> {
    if !Writes(x) then files
    else if x.sidecarRaises then files + {Name(x)}
    else Pruned(files + {Name(x), Sidecar(Name(x))}, n, x.deletion)
  }

  ghost function Directory(start: set<string>, shots: seq<Shot>, n: nat): set<string> {
    if |shots| == 0 then start
    else AfterShot(Directory(start, shots[..|shots| - 1], n), shots[|shots| - 1], n)
  }

  /** Every image there ever was. */
  ghost function Ever(start: set<string>, shots: seq<Shot>): set<string> {
    if |shots| == 0 then Images(start)
    else
      var x := shots[|shots| - 1];
      var before := Ever(start, shots[..|shots| - 1]);
      if Writes(x) then before + {Name(x)} else before
  }

  /** The handler run on one alert after another. */
  method HandleAll(start: set<string>, shots: seq<Shot>, maxCount: nat) returns (handler: SnapshotHandler)
    ensures fresh(handler)
    ensures handler.files == Directory(start, shots, maxCount)
  {
    handler := new SnapshotHandler(maxCount, start);
    ghost var directory := start;
    assert directory == Directory(start, shots[..0], maxCount);
    for k := 0 to |shots|
      invariant fresh(handler) && handler.maxCount == maxCount && handler.files == directory
      invariant directory == Directory(start, shots[..k], maxCount)
    {
      var x := shots[k];
      directory := AfterShot(directory, x, maxCount);
      handler.Trigger(x.frame, x.at, x.frameId, x.image, x.sidecarRaises, x.deletion);
      assert shots[..k + 1][..k] == shots[..k];
    }
    assert shots[..|shots|] == shots;
  }

  lemma {:induction false} EverImages(start: set<string>, shots: seq<Shot>)
    ensures Images(Ever(start, shots)) == Ever(start, shots)
  {
    if |shots| > 0 {
      EverImages(start, shots[..|shots| - 1]);
    }
  }

  lemma StoredImages(files: set<string>, x: Shot)
    ensures Images(files + {Name(x), Sidecar(Name(x))}) == Images(files) + {Name(x)}
    ensures Images(files + {Name(x)}) == Images(files) + {Name(x)}
  {
    SidecarIsNoImage(Name(x));
  }

  /** One alert more: what is kept among the images there are is what is kept among all there ever were. */
  lemma ShotKeeps(ever: set<string>, files: set<string>, x: Shot, n: nat)
    requires Images(ever) == ever && Images(files) <= ever && Kept(files, n) == Kept(ever, n)
    requires Writes(x)
    ensures Images(AfterShot(files, x, n)) <= ever + {Name(x)}
    ensures Kept(AfterShot(files, x, n), n) == Kept(ever + {Name(x)}, n)
    ensures Completes(x) ==> Images(AfterShot(files, x, n)) == Kept(ever + {Name(x)}, n)
  {
    StoredImages(files, x);
    assert Images(ever + {Name(x)}) == ever + {Name(x)};
    if x.sidecarRaises {
      KeptGrows(ever, files, ever + {Name(x)}, files + {Name(x)}, Name(x), n);
    } else {
      var stored := files + {Name(x), Sidecar(Name(x))};
      KeptGrows(ever, files, ever + {Name(x)}, stored, Name(x), n);
      PruningKeeps(stored, n, x.deletion);
      PrunedImages(stored, n);
    }
  }

  /** After any alerts under any names, in any order, repeated or not, from any directory, and whatever
      writes and deletions failed on the way: the `n` greatest of all the images there ever were are
      there, and they are the greatest of those that are. After an alert that stored both files and
      deleted all that was to be deleted, they are the only images. */
  lemma {:induction false} RankedRetention(start: set<string>, shots: seq<Shot>, n: nat)
    ensures var ever, files := Ever(start, shots), Directory(start, shots, n);
            && Kept(ever, n) <= Images(files) <= ever
            && Kept(files, n) == Kept(ever, n)
            && (|shots| > 0 && Completes(shots[|shots| - 1]) ==> Images(files) == Kept(ever, n))
  {
    EverImages(start, shots);
    if |shots| == 0 {
      assert forall f :: Greater(Images(start), f) == Greater(start, f);
    } else {
      var shorter, x := shots[..|shots| - 1], shots[|shots| - 1];
      RankedRetention(start, shorter, n);
      EverImages(start, shorter);
      if Writes(x) {
        ShotKeeps(Ever(start, shorter), Directory(start, shorter, n), x, n);
      }
    }
  }

  // ----- The cap -----

  /** The images written since the last pruning that ran to its end. */
  function Unpruned(shots: seq<Shot>): nat {
    if |shots| == 0 then 0
    else
      var x := shots[|shots| - 1];
      if Completes(x) then 0 else Unpruned(shots[..|shots| - 1]) + if Writes(x) then 1 else 0
  }

  /** The cap is exceeded by no more than the images written since it was last enforced to the end. */
  lemma {:induction false} CapBound(start: set<string>, shots: seq<Shot>, n: nat)
    ensures |Images(Directory(start, shots, n))| <= Max(n, |Images(start)|) + Unpruned(shots)
  {
    if |shots| > 0 {
      var shorter, x := shots[..|shots| - 1], shots[|shots| - 1];
      CapBound(start, shorter, n);
      if Completes(x) {
        RankedRetention(start, shots, n);
        KeptCount(Ever(start, shots), n);
      } else if Writes(x) {
        var files := Directory(start, shorter, n);
        StoredImages(files, x);
        PruningKeeps(files + {Name(x), Sidecar(Name(x))}, n, x.deletion);
        Fewer(Images(AfterShot(files, x, n)), Images(files) + {Name(x)});
      }
    }
  }

  lemma {:induction false} WithoutSidecars(start: set<string>, shots: seq<Shot>, n: nat, f: string)
    requires forall k :: 0 <= k < |shots| ==> Writes(shots[k]) && shots[k].sidecarRaises
    ensures f in Directory(start, shots, n) <==> f in start || exists k :: 0 <= k < |shots| && f == Name(shots[k])
  {
    if |shots| > 0 {
      var shorter := shots[..|shots| - 1];
      WithoutSidecars(start, shorter, n, f);
      assert forall k :: 0 <= k < |shorter| ==> shorter[k] == shots[k];
    }
  }

  /** By as much as that: while sidecars cannot be written, every image stays. */
  lemma {:induction false} CapExceeded(start: set<string>, shots: seq<Shot>, n: nat)
    requires forall k :: 0 <= k < |shots| ==> Writes(shots[k]) && shots[k].sidecarRaises
    requires forall k :: 0 <= k < |shots| ==> Name(shots[k]) !in start
    requires forall i, j :: 0 <= i < j < |shots| ==> Name(shots[i]) != Name(shots[j])
    ensures |Images(Directory(start, shots, n))| == |Images(start)| + |shots|
  {
    if |shots| > 0 {
      var shorter, x := shots[..|shots| - 1], shots[|shots| - 1];
      CapExceeded(start, shorter, n);
      WithoutSidecars(start, shorter, n, Name(x));
      ImagesWithoutSidecar(Directory(start, shorter, n), x, n);
    }
  }

  // ----- Which images, exactly -----

  /** No deletion fails; writes may. */
  ghost predicate DeletionsWork(shots: seq<Shot>) {
    forall k :: 0 <= k < |shots| ==> shots[k].deletion.AllDone?
  }

  /** How many alerts there were up to the last that pruned. */
  function LastPrune(shots: seq<Shot>): (p: nat)
    ensures p <= |shots|
  {
    if |shots| == 0 then 0
    else if Completes(shots[|shots| - 1]) then |shots| else LastPrune(shots[..|shots| - 1])
  }

  ghost function WrittenSince(shots: seq<Shot>, p: nat): set<string> {
    if |shots| <= p then {}
    else
      var x := shots[|shots| - 1];
      var before := WrittenSince(shots[..|shots| - 1], p);
      if Writes(x) then before + {Name(x)} else before
  }

  /** When no deletion fails, the images are those the last pruning kept, of all up to then, and every
      one written since. */
  lemma {:induction false} ImagesSincePrune(start: set<string>, shots: seq<Shot>, n: nat)
    requires DeletionsWork(shots)
    ensures var p := LastPrune(shots);
            Images(Directory(start, shots, n))
            == (if p == 0 then Images(start) else Kept(Ever(start, shots[..p]), n)) + WrittenSince(shots, p)
  {
    var p := LastPrune(shots);
    if |shots| > 0 {
      var shorter, x := shots[..|shots| - 1], shots[|shots| - 1];
      if Completes(x) {
        assert shots[..p] == shots;
        RankedRetention(start, shots, n);
      } else {
        ImagesSincePrune(start, shorter, n);
        assert shorter[..p] == shots[..p];
        StoredImages(Directory(start, shorter, n), x);
      }
    }
  }

  lemma {:induction false} WrittenAt(shots: seq<Shot>, p: nat, f: string)
    ensures f in WrittenSince(shots, p) <==> exists k :: p <= k < |shots| && Writes(shots[k]) && Name(shots[k]) == f
  {
    if |shots| > p {
      var shorter := shots[..|shots| - 1];
      WrittenAt(shorter, p, f);
      assert forall k :: 0 <= k < |shorter| ==> shorter[k] == shots[k];
    }
  }

  // ----- Sidecars -----

  /** The names whose sidecar was written. */
  ghost function Described(shots: seq<Shot>): set<string> {
    if |shots| == 0 then {}
    else
      var x := shots[|shots| - 1];
      var before := Described(shots[..|shots| - 1]);
      if Writes(x) && !x.sidecarRaises then before + {Name(x)} else before
  }

  ghost predicate AllProper(images: set<string>) {
    forall f :: f in images ==> ProperName(f)
  }

  lemma {:induction false} EverProper(start: set<string>, shots: seq<Shot>)
    requires AllProper(Images(start))
    ensures AllProper(Ever(start, shots))
  {
    if |shots| > 0 {
      EverProper(start, shots[..|shots| - 1]);
    }
  }

  /** The sidecar of `f` is there exactly when it was written or was there from the start. */
  ghost predicate SidecarRight(start: set<string>, shots: seq<Shot>, n: nat, f: string)
    requires ProperName(f)
  {
    Sidecar(f) in Directory(start, shots, n) <==> f in Described(shots) || Sidecar(f) in start
  }

  /** One alert and one sidecar: only a written one is new, and pruning leaves that of an image it keeps
      or does not know. */
  lemma SidecarAfter(files: set<string>, x: Shot, n: nat, f: string)
    requires AllProper(Images(files)) && ProperName(f)
    requires f in Kept(Images(files) + {Name(x)}, n) || f !in Images(files) + {Name(x)}
    ensures Sidecar(f) in AfterShot(files, x, n)
       <==> Sidecar(f) in files || (Writes(x) && !x.sidecarRaises && f == Name(x))
  {
    SidecarIsNoImage(f);
    if Sidecar(f) == Sidecar(Name(x)) {
      SidecarsApart(f, Name(x));
    }
    var stored := files + {Name(x), Sidecar(Name(x))};
    StoredImages(files, x);
    KeptOfImages(stored, n);
    SidecarStays(stored, n, x.deletion, f);
  }

  lemma KeptOfImages(files: set<string>, n: nat)
    ensures Kept(files, n) == Kept(Images(files), n)
  {
    assert Images(Images(files)) == Images(files);
    assert forall f :: Greater(Images(files), f) == Greater(files, f);
  }

  /** Every image among the `n` greatest there ever were has its sidecar exactly when that was written. */
  lemma {:induction false} SidecarsOfKept(start: set<string>, shots: seq<Shot>, n: nat, f: string)
    requires AllProper(Images(start)) && ProperName(f)
    requires f in Kept(Ever(start, shots), n) || f !in Ever(start, shots)
    ensures SidecarRight(start, shots, n, f)
  {
    if |shots| > 0 {
      var shorter, x := shots[..|shots| - 1], shots[|shots| - 1];
      var ever, files := Ever(start, shorter), Directory(start, shorter, n);
      EverImages(start, shorter);
      EverProper(start, shorter);
      RankedRetention(start, shorter, n);
      if Writes(x) {
        assert Images(ever + {Name(x)}) == ever + {Name(x)};
        KeptBefore(ever, ever + {Name(x)}, Name(x), n);
        var some := Images(files) + {Name(x)};
        assert Images(some) == some && Images(Images(files)) == Images(files);
        KeptOfImages(files, n);
        KeptGrows(ever, Images(files), ever + {Name(x)}, some, Name(x), n);
        SidecarAfter(files, x, n, f);
        assert Name(x) in ever ==> ever + {Name(x)} == ever;
      }
      SidecarsOfKept(start, shorter, n, f);
    }
  }

  /** Everything in the directory is an image or the sidecar of one. */
  ghost predicate NoOrphans(files: set<string>) {
    forall g :: g in files && !IsImage(g) ==> exists f :: f in Images(files) && Sidecar(f) == g
  }

  lemma PruningLeavesNoOrphan(files: set<string>, n: nat)
    requires NoOrphans(files)
    ensures NoOrphans(Pruned(files, n, AllDone))
  {
    var left := Pruned(files, n, AllDone);
    PrunedImages(files, n);
    forall g | g in left && !IsImage(g)
      ensures exists f :: f in Images(left) && Sidecar(f) == g
    {
      var f :| f in Images(files) && Sidecar(f) == g;
      assert f !in Gone(files, n);
    }
  }

  lemma {:induction false} NeverOrphans(start: set<string>, shots: seq<Shot>, n: nat)
    requires NoOrphans(start) && DeletionsWork(shots)
    ensures NoOrphans(Directory(start, shots, n))
  {
    if |shots| > 0 {
      var shorter, x := shots[..|shots| - 1], shots[|shots| - 1];
      NeverOrphans(start, shorter, n);
      var files := Directory(start, shorter, n);
      assert x.deletion == AllDone;
      StoredImages(files, x);
      if Writes(x) {
        OneMorePair(files, x);
        PruningLeavesNoOrphan(files + {Name(x), Sidecar(Name(x))}, n);
      }
    }
  }

  lemma OneMorePair(files: set<string>, x: Shot)
    requires NoOrphans(files)
    ensures NoOrphans(files + {Name(x)}) && NoOrphans(files + {Name(x), Sidecar(Name(x))})
  {
    forall g | g in files && !IsImage(g)
      ensures exists f :: f in Images(files + {Name(x)}) && Sidecar(f) == g
      ensures exists f :: f in Images(files + {Name(x), Sidecar(Name(x))}) && Sidecar(f) == g
    {
      var f :| f in Images(files) && Sidecar(f) == g;
      assert f in Images(files + {Name(x)}) && f in Images(files + {Name(x), Sidecar(Name(x))});
    }
    assert Name(x) in Images(files + {Name(x), Sidecar(Name(x))});
  }

  /** The whole directory, once an alert has completed, when no deletion fails: the `n` greatest images
      ever written, the sidecars that were written for them, and nothing else. */
  lemma DirectoryExactly(shots: seq<Shot>, n: nat)
    requires DeletionsWork(shots) && |shots| > 0 && Completes(shots[|shots| - 1])
    ensures var kept := Kept(Ever({}, shots), n);
            Directory({}, shots, n) == kept + Sidecars(kept * Described(shots))
  {
    var kept, files := Kept(Ever({}, shots), n), Directory({}, shots, n);
    RankedRetention({}, shots, n);
    EverProper({}, shots);
    NeverOrphans({}, shots, n);
    forall f | f in kept
      ensures Sidecar(f) in files <==> f in Described(shots)
    {
      SidecarsOfKept({}, shots, n, f);
    }
    forall g | g in files && !IsImage(g)
      ensures g in Sidecars(kept * Described(shots))
    {
      var f :| f in Images(files) && Sidecar(f) == g;
    }
  }

  // ----- Names and stamps -----

  function Names(shots: seq<Shot>): seq<string> {
    seq(|shots|, k requires 0 <= k < |shots| => Name(shots[k]))
  }

  lemma NamesGrow(shots: seq<Shot>)
    requires |shots| > 0
    ensures var x := shots[|shots| - 1];
            Entries(Names(shots)) == Entries(Names(shots[..|shots| - 1])) + {Name(x)}
  {
    var shorter, x := shots[..|shots| - 1], shots[|shots| - 1];
    assert Names(shots) == Names(shorter) + [Name(x)];
  }

  lemma {:induction false} AllCompleted(shots: seq<Shot>)
    requires forall k :: 0 <= k < |shots| ==> Completes(shots[k])
    ensures Ever({}, shots) == Entries(Names(shots)) && Described(shots) == Entries(Names(shots))
  {
    if |shots| > 0 {
      AllCompleted(shots[..|shots| - 1]);
      assert Completes(shots[|shots| - 1]);
      NamesGrow(shots);
    }
  }

  /** When nothing fails and names ascend, the directory holds exactly the last `n` images, each with its
      sidecar. */
  lemma AscendingRetention(shots: seq<Shot>, n: nat)
    requires forall k :: 0 <= k < |shots| ==> Completes(shots[k])
    requires Ascending(Names(shots))
    ensures var last := Entries(LastN(Names(shots), n));
            Directory({}, shots, n) == last + Sidecars(last)
  {
    var names := Names(shots);
    AllCompleted(shots);
    EverImages({}, shots);
    KeptOfAscending(Entries(names), names, n);
    assert LastN(names, n) == names[Max(|names| - n, 0)..];
    if |shots| > 0 {
      DirectoryExactly(shots, n);
      var kept := Kept(Entries(names), n);
      assert kept * Entries(names) == kept;
    }
  }

  /** No two written images have the same stamp, though they may come in any order. */
  ghost predicate Stamped(shots: seq<Shot>) {
    && (forall k :: 0 <= k < |shots| && Writes(shots[k]) ==> InRange(shots[k].at))
    && (forall i, j :: 0 <= i < |shots| && 0 <= j < |shots| && i != j && Writes(shots[i]) && Writes(shots[j]) ==>
          Before(shots[i].at, shots[j].at) || Before(shots[j].at, shots[i].at))
  }

  /** The images stamped later than that of alert `k`, written before or after it. */
  ghost function LaterThan(shots: seq<Shot>, k: nat): set<int>
    requires k < |shots|
  {
    set j | 0 <= j < |shots| && Writes(shots[j]) && Before(shots[k].at, shots[j].at)
  }

  lemma NameOrder(shots: seq<Shot>, i: nat, j: nat)
    requires Stamped(shots) && i < |shots| && j < |shots| && Writes(shots[i]) && Writes(shots[j])
    ensures Less(Name(shots[i]), Name(shots[j])) <==> Before(shots[i].at, shots[j].at)
    ensures Name(shots[i]) == Name(shots[j]) <==> i == j
  {
    OrderBasics(Name(shots[i]), Name(shots[j]));
    OrderBasics(Name(shots[j]), Name(shots[i]));
    if Before(shots[i].at, shots[j].at) {
      LaterNameIsGreater(shots[i].at, shots[j].at, shots[i].frameId, shots[j].frameId);
    } else if i != j {
      LaterNameIsGreater(shots[j].at, shots[i].at, shots[j].frameId, shots[i].frameId);
    }
  }

  ghost function NamesAt(places: set<int>, names: seq<string>): set<string>
    requires forall j :: j in places ==> 0 <= j < |names|
  {
    set j | j in places :: names[j]
  }

  lemma {:induction false} SameSize(places: set<int>, names: seq<string>)
    requires forall j :: j in places ==> 0 <= j < |names|
    requires forall i, j :: i in places && j in places && i != j ==> names[i] != names[j]
    ensures |NamesAt(places, names)| == |places|
  {
    if places == {} {
      assert NamesAt(places, names) == {};
    } else {
      var j := Member(places);
      SameSize(places - {j}, names);
      assert NamesAt(places, names) == NamesAt(places - {j}, names) + {names[j]};
    }
  }

  lemma {:induction false} EverByPlace(shots: seq<Shot>, f: string)
    ensures f in Ever({}, shots) <==> exists k :: 0 <= k < |shots| && Writes(shots[k]) && Name(shots[k]) == f
  {
    if |shots| > 0 {
      var shorter := shots[..|shots| - 1];
      EverByPlace(shorter, f);
      assert forall k :: 0 <= k < |shorter| ==> shorter[k] == shots[k];
    }
  }

  /** The names greater than that of alert `k` are those of the images stamped later. */
  lemma GreaterIsLater(shots: seq<Shot>, k: nat)
    requires Stamped(shots) && k < |shots| && Writes(shots[k])
    ensures Name(shots[k]) in Ever({}, shots)
    ensures |Greater(Ever({}, shots), Name(shots[k]))| == |LaterThan(shots, k)|
  {
    var names, later := Names(shots), LaterThan(shots, k);
    LaterNamesCount(shots, k);
    EverByPlace(shots, Name(shots[k]));
    forall f
      ensures f in Greater(Ever({}, shots), Name(shots[k])) <==> f in NamesAt(later, names)
    {
      GreaterByName(shots, k, f);
    }
    assert Greater(Ever({}, shots), Name(shots[k])) == NamesAt(later, names);
  }

  lemma LaterNamesCount(shots: seq<Shot>, k: nat)
    requires Stamped(shots) && k < |shots|
    ensures |NamesAt(LaterThan(shots, k), Names(shots))| == |LaterThan(shots, k)|
  {
    var names, later := Names(shots), LaterThan(shots, k);
    forall i, j | i in later && j in later && i != j
      ensures names[i] != names[j]
    {
      NameOrder(shots, i, j);
    }
    SameSize(later, names);
  }

  lemma GreaterByName(shots: seq<Shot>, k: nat, f: string)
    requires Stamped(shots) && k < |shots| && Writes(shots[k])
    ensures f in Greater(Ever({}, shots), Name(shots[k])) <==> f in NamesAt(LaterThan(shots, k), Names(shots))
  {
    EverByPlace(shots, f);
    LaterByName(shots, k, f);
  }

  lemma LaterByName(shots: seq<Shot>, k: nat, f: string)
    requires Stamped(shots) && k < |shots| && Writes(shots[k])
    ensures f in NamesAt(LaterThan(shots, k), Names(shots))
       <==> Less(Name(shots[k]), f) && exists j :: 0 <= j < |shots| && Writes(shots[j]) && Name(shots[j]) == f
    ensures f in NamesAt(LaterThan(shots, k), Names(shots)) ==> IsImage(f)
  {
    if j :| 0 <= j < |shots| && Writes(shots[j]) && Name(shots[j]) == f {
      NameOrder(shots, k, j);
      if Before(shots[k].at, shots[j].at) {
        assert j in LaterThan(shots, k) && Names(shots)[j] == f;
      }
    }
    if j :| j in LaterThan(shots, k) && Names(shots)[j] == f {
      NameOrder(shots, k, j);
    }
  }

  lemma KeptIfFewLater(shots: seq<Shot>, k: nat, n: nat)
    requires Stamped(shots) && k < |shots| && Writes(shots[k])
    ensures Name(shots[k]) in Kept(Ever({}, shots), n) <==> |LaterThan(shots, k)| < n
  {
    EverImages({}, shots);
    GreaterIsLater(shots, k);
  }

  /** Whatever the clock does, as long as no stamp repeats, and whatever writes and deletions fail: an
      image is there while fewer than `n` others, written before or after it, have a later stamp; and
      after an alert that completed, only then. */
  lemma KeptByStamp(shots: seq<Shot>, k: nat, n: nat)
    requires Stamped(shots) && k < |shots| && Writes(shots[k])
    ensures |LaterThan(shots, k)| < n ==> Name(shots[k]) in Directory({}, shots, n)
    ensures Completes(shots[|shots| - 1]) ==>
              (Name(shots[k]) in Directory({}, shots, n) <==> |LaterThan(shots, k)| < n)
  {
    var name, files := Name(shots[k]), Directory({}, shots, n);
    RankedRetention({}, shots, n);
    KeptIfFewLater(shots, k, n);
    assert name in files <==> name in Images(files);
  }

  lemma NotWrittenAgain(shots: seq<Shot>, k: nat, p: nat)
    requires Stamped(shots) && k < |shots| && Writes(shots[k])
    ensures Name(shots[k]) in WrittenSince(shots, p) <==> p <= k
  {
    WrittenAt(shots, p, Name(shots[k]));
    if j :| p <= j < |shots| && Writes(shots[j]) && Name(shots[j]) == Name(shots[k]) {
      NameOrder(shots, j, k);
    }
  }

  lemma StampedPrefix(shots: seq<Shot>, p: nat)
    requires Stamped(shots) && p <= |shots|
    ensures Stamped(shots[..p])
  {
  }

  /** And in between, when no deletion fails: exactly those written since the last alert that completed,
      and those that had fewer than `n` later ones then. */
  lemma KeptSincePrune(shots: seq<Shot>, k: nat, n: nat)
    requires Stamped(shots) && k < |shots| && Writes(shots[k]) && DeletionsWork(shots)
    ensures var p := LastPrune(shots);
            Name(shots[k]) in Directory({}, shots, n) <==> k >= p || |LaterThan(shots[..p], k)| < n
  {
    var p, name, files := LastPrune(shots), Name(shots[k]), Directory({}, shots, n);
    ImagesSincePrune({}, shots, n);
    NotWrittenAgain(shots, k, p);
    assert name in files <==> name in Images(files);
    if k < p {
      StampedPrefix(shots, p);
      assert shots[..p][k] == shots[k];
      KeptIfFewLater(shots[..p], k, n);
    }
  }

  /** The images written after alert `k`. */
  ghost function WrittenAfter(shots: seq<Shot>, k: nat): set<int> {
    set j | k < j < |shots| && Writes(shots[j])
  }

  /** With a clock that moves forward, after an alert that completed: exactly the most recent `n` of the
      images that could be written, and no other image. */
  lemma MostRecentKept(shots: seq<Shot>, n: nat)
    requires forall k :: 0 <= k < |shots| ==> InRange(shots[k].at)
    requires forall i, j :: 0 <= i < j < |shots| ==> Before(shots[i].at, shots[j].at)
    requires |shots| > 0 && Completes(shots[|shots| - 1])
    ensures forall k :: 0 <= k < |shots| && Writes(shots[k]) ==>
              (Name(shots[k]) in Directory({}, shots, n) <==> |WrittenAfter(shots, k)| < n)
    ensures forall f :: f in Images(Directory({}, shots, n)) ==>
              exists k :: 0 <= k < |shots| && Writes(shots[k]) && Name(shots[k]) == f
  {
    forall k | 0 <= k < |shots| && Writes(shots[k])
      ensures Name(shots[k]) in Directory({}, shots, n) <==> |WrittenAfter(shots, k)| < n
    {
      KeptByStamp(shots, k, n);
      assert LaterThan(shots, k) == WrittenAfter(shots, k);
    }
    RankedRetention({}, shots, n);
    forall f | f in Images(Directory({}, shots, n))
      ensures exists k :: 0 <= k < |shots| && Writes(shots[k]) && Name(shots[k]) == f
    {
      EverByPlace(shots, f);
    }
  }

  // ----- Runs that show it -----

  /** After the clock was set back the newest image is deleted by its own trigger: here the second of
      two, with room for one. */
  lemma NewestLost(first: Shot, second: Shot)
    requires InRange(first.at) && InRange(second.at) && Before(second.at, first.at)
    requires Completes(first) && Completes(second)
    ensures Name(first) in Directory({}, [first, second], 1)
    ensures Name(second) !in Directory({}, [first, second], 1)
  {
    var shots := [first, second];
    KeptByStamp(shots, 0, 1);
    KeptByStamp(shots, 1, 1);
    assert LaterThan(shots, 0) == {};
    assert LaterThan(shots, 1) == {0};
  }

  lemma DirectoryGrows(start: set<string>, shots: seq<Shot>, x: Shot, n: nat)
    ensures Directory(start, shots + [x], n) == AfterShot(Directory(start, shots, n), x, n)
  {
    assert (shots + [x])[..|shots|] == shots;
  }

  lemma OneImage(images: set<string>, name: string)
    requires name in images && |images| <= 1
    ensures images == {name}
  {
    Fewer({name}, images);
    assert images == {name} + (images - {name});
  }

  lemma OnlyImage(x: Shot)
    requires InRange(x.at) && Completes(x)
    ensures Images(Directory({}, [x], 1)) == {Name(x)}
  {
    assert LaterThan([x], 0) == {};
    KeptByStamp([x], 0, 1);
    CapBound({}, [x], 1);
    OneImage(Images(Directory({}, [x], 1)), Name(x));
  }

  lemma ImagesWithoutSidecar(files: set<string>, x: Shot, n: nat)
    requires Writes(x) && x.sidecarRaises
    ensures Images(AfterShot(files, x, n)) == Images(files) + {Name(x)}
  {
    StoredImages(files, x);
  }

  lemma NamesDiffer(a: Shot, b: Shot)
    requires InRange(a.at) && InRange(b.at) && Before(a.at, b.at)
    ensures Name(a) != Name(b)
  {
    LaterNameIsGreater(a.at, b.at, a.frameId, b.frameId);
    OrderBasics(Name(a), Name(b));
  }

  lemma TwoNames(a: string, b: string)
    requires a != b
    ensures |{a} + {b}| == 2
  {
  }

  /** After a sidecar that could not be written, an image with a later one beside it stays, and there are
      two images with room for one. */
  lemma OlderStays(first: Shot, second: Shot)
    requires InRange(first.at) && InRange(second.at) && Before(first.at, second.at)
    requires Completes(first) && Writes(second) && second.sidecarRaises
    ensures Images(Directory({}, [first] + [second], 1)) == {Name(first)} + {Name(second)}
    ensures |Images(Directory({}, [first] + [second], 1))| == 2
  {
    OnlyImage(first);
    DirectoryGrows({}, [first], second, 1);
    ImagesWithoutSidecar(Directory({}, [first], 1), second, 1);
    NamesDiffer(first, second);
    TwoNames(Name(first), Name(second));
  }
}
