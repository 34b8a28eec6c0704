/** Zone containment and the elevated-or-floor classification of one frame. */
module Geometry {
  import opened Models

  datatype Point = Point(x: real, y: real)

  /** The frame height is a divisor. */
  type FrameHeight = h: int | h != 0 witness 480

  /** What a classification depends on besides boxes and zones. `contains` stands for the library's
      polygon test: any fixed relation between polygons and points. */
  datatype Scene = Scene(
    contains: (seq<(int, int)>, Point) -> bool,
    frameHeight: FrameHeight,
    minSizeRatio: real)

  datatype FrameAnalysis = FrameAnalysis(elevated: bool, triggeredZones: set<ZoneId>)

  /** The four corners and the centre. */
  function BoxTestPoints(box: BoundingBox): seq<Point> {
    var left, right := box.x1 as real, box.x2 as real;
    var top, bottom := box.y1 as real, box.y2 as real;
    [Point(left, top), Point(right, top), Point(right, bottom), Point(left, bottom),
     Point((left + right) / 2.0, (top + bottom) / 2.0)]
  }

  predicate Tall(scene: Scene, box: BoundingBox) {
    (box.y2 - box.y1) as real / scene.frameHeight as real > scene.minSizeRatio
  }

  /** Some test point of the box lies in the zone, and the zone is enabled. */
  predicate Touches(scene: Scene, box: BoundingBox, zone: Zone) {
    zone.enabled && exists p | p in BoxTestPoints(box) :: scene.contains(zone.polygon, p)
  }

  /** The ids of the touched zones, in zone order. */
  function TouchedIds(scene: Scene, box: BoundingBox, zones: seq<Zone>): seq<ZoneId> {
    if |zones| == 0 then []
    else
      var last := zones[|zones| - 1];
      TouchedIds(scene, box, zones[..|zones| - 1]) + if Touches(scene, box, last) then [last.id] else []
  }

  /** What one frame should be classified as, without any order: the zones that some tall box touches. */
  ghost function Analysis(scene: Scene, boxes: seq<BoundingBox>, zones: seq<Zone>): FrameAnalysis {
    var triggered := set b, z | b in boxes && z in zones && Tall(scene, b) && Touches(scene, b, z) :: z.id;
    FrameAnalysis(triggered != {}, triggered)
  }

  method CheckZones(scene: Scene, box: BoundingBox, zones: seq<Zone>) returns (triggered: seq<ZoneId>)
    ensures triggered == TouchedIds(scene, box, zones)
  {
    triggered := [];
    for n := 0 to |zones|
      invariant triggered == TouchedIds(scene, box, zones[..n])
    {
      var zone := zones[n];
      ghost var before := triggered;
      if zone.enabled {
        var points := BoxTestPoints(box);
        for k := 0 to |points|
          invariant triggered == before
          invariant forall i :: 0 <= i < k ==> !scene.contains(zone.polygon, points[i])
        {
          if scene.contains(zone.polygon, points[k]) {
            triggered := triggered + [zone.id];
            break;
          }
        }
      }
      assert zones[..n + 1] == zones[..n] + [zone];
    }
    assert zones[..|zones|] == zones;
  }

  method AnalyzeDogPosition(scene: Scene, box: BoundingBox, zones: seq<Zone>)
    returns (isElevated: bool, triggered: seq<ZoneId>)
    ensures triggered == TouchedIds(scene, box, zones)
    ensures isElevated <==> Tall(scene, box) && exists z :: z in zones && Touches(scene, box, z)
  {
    var sizeRatio := (box.y2 - box.y1) as real / scene.frameHeight as real;
    triggered := CheckZones(scene, box, zones);
    isElevated := sizeRatio > scene.minSizeRatio && |triggered| > 0;
    TouchedIdsAre(scene, box, zones);
    if |triggered| > 0 {
      assert triggered[0] in triggered;
    }
    if z :| z in zones && Touches(scene, box, z) {
      assert z.id in triggered;
    }
  }

  method AnalyzeDetections(scene: Scene, boxes: seq<BoundingBox>, zones: seq<Zone>)
    returns (analysis: FrameAnalysis)
    ensures analysis == Analysis(scene, boxes, zones)
  {
    var allZones: set<ZoneId> := {};
    var elevated := false;
    for n := 0 to |boxes|
      invariant FrameAnalysis(elevated, allZones) == Analysis(scene, boxes[..n], zones)
    {
      var isEl, zoneIds := AnalyzeDogPosition(scene, boxes[n], zones);
      TouchedIdsAre(scene, boxes[n], zones);
      assert boxes[..n + 1] == boxes[..n] + [boxes[n]];
      ghost var before := allZones;
      if isEl {
        elevated := true;
        allZones := allZones + set z | z in zoneIds;
        assert zoneIds != [] && zoneIds[0] in allZones by {
          var z :| z in zones && Touches(scene, boxes[n], z);
          assert z.id in zoneIds;
        }
      }
      AnalysisStep(scene, boxes[..n], boxes[n], zones);
    }
    assert boxes[..|boxes|] == boxes;
    return FrameAnalysis(elevated, allZones);
  }

  /** One more box adds exactly its own touched zones, and only when it is tall. */
  lemma AnalysisStep(scene: Scene, boxes: seq<BoundingBox>, box: BoundingBox, zones: seq<Zone>)
    ensures Analysis(scene, boxes + [box], zones).triggeredZones
         == Analysis(scene, boxes, zones).triggeredZones
            + if Tall(scene, box) then set z | z in TouchedIds(scene, box, zones) else {}
  {
    TouchedIdsAre(scene, box, zones);
    forall id | id in TouchedIds(scene, box, zones) && Tall(scene, box)
      ensures id in Analysis(scene, boxes + [box], zones).triggeredZones
    {
      var z :| z in zones && z.id == id && Touches(scene, box, z);
      assert box in boxes + [box];
    }
    forall id | id in Analysis(scene, boxes, zones).triggeredZones
      ensures id in Analysis(scene, boxes + [box], zones).triggeredZones
    {
      var b, z :| b in boxes && z in zones && Tall(scene, b) && Touches(scene, b, z) && z.id == id;
      assert b in boxes + [box];
    }
  }

  lemma {:induction false} TouchedIdsAre(scene: Scene, box: BoundingBox, zones: seq<Zone>)
    ensures forall id :: id in TouchedIds(scene, box, zones)
                    <==> exists z :: z in zones && z.id == id && Touches(scene, box, z)
  {
    if |zones| > 0 {
      var shorter, last := zones[..|zones| - 1], zones[|zones| - 1];
      TouchedIdsAre(scene, box, shorter);
      assert zones == shorter + [last];
    }
  }

  /** What the list of touched zones is: in zone order, a zone's id once for each such zone. */
  lemma {:induction false} TouchedIdsInOrder(scene: Scene, box: BoundingBox, a: seq<Zone>, b: seq<Zone>, z: Zone)
    ensures TouchedIds(scene, box, []) == []
    ensures TouchedIds(scene, box, [z]) == if Touches(scene, box, z) then [z.id] else []
    ensures TouchedIds(scene, box, a + b) == TouchedIds(scene, box, a) + TouchedIds(scene, box, b)
    decreases |b|
  {
    assert [z][..0] == [];
    if |b| > 0 {
      var n := |b| - 1;
      TouchedIdsInOrder(scene, box, a, b[..n], z);
      assert (a + b)[..|a + b| - 1] == a + b[..n];
    } else {
      assert a + b == a;
    }
  }

  /** The zones named are those of the tall boxes, and no others. */
  lemma TriggeredIff(scene: Scene, boxes: seq<BoundingBox>, zones: seq<Zone>, id: ZoneId)
    ensures id in Analysis(scene, boxes, zones).triggeredZones
       <==> exists b, z, p :: b in boxes && z in zones && p in BoxTestPoints(b) && z.id == id
                              && Tall(scene, b) && z.enabled && scene.contains(z.polygon, p)
  {
    if b, z, p :| b in boxes && z in zones && p in BoxTestPoints(b) && z.id == id
                  && Tall(scene, b) && z.enabled && scene.contains(z.polygon, p) {
      assert Touches(scene, b, z);
    }
    if id in Analysis(scene, boxes, zones).triggeredZones {
      var b, z :| b in boxes && z in zones && Tall(scene, b) && Touches(scene, b, z) && z.id == id;
      var p :| p in BoxTestPoints(b) && scene.contains(z.polygon, p);
    }
  }

  /** The test points are every combination of the box's sides, and the point halfway between them. */
  lemma TestPointsAre(box: BoundingBox, p: Point)
    ensures p in BoxTestPoints(box)
       <==> ((p.x == box.x1 as real || p.x == box.x2 as real) && (p.y == box.y1 as real || p.y == box.y2 as real))
            || (p.x - box.x1 as real == box.x2 as real - p.x && p.y - box.y1 as real == box.y2 as real - p.y)
  {
  }

  /** With a real frame height, tall means taller in pixels than that share of the frame. */
  lemma TallMeans(scene: Scene, box: BoundingBox)
    requires scene.frameHeight > 0
    ensures Tall(scene, box) <==> (box.y2 - box.y1) as real > scene.minSizeRatio * scene.frameHeight as real
  {
  }

  /** A frame is elevated exactly when some tall box has a test point in an enabled zone, and then,
      and only then, it names a zone. */
  lemma ElevatedIff(scene: Scene, boxes: seq<BoundingBox>, zones: seq<Zone>)
    ensures var a := Analysis(scene, boxes, zones);
            && (a.elevated <==> a.triggeredZones != {})
            && (a.elevated <==> exists b, z, p :: b in boxes && z in zones && p in BoxTestPoints(b)
                                  && Tall(scene, b) && z.enabled && scene.contains(z.polygon, p))
  {
    var a := Analysis(scene, boxes, zones);
    if b, z, p :| b in boxes && z in zones && p in BoxTestPoints(b)
                  && Tall(scene, b) && z.enabled && scene.contains(z.polygon, p) {
      assert Touches(scene, b, z);
      assert z.id in a.triggeredZones;
    }
    if a.elevated {
      var id :| id in a.triggeredZones;
      var b, z :| b in boxes && z in zones && Tall(scene, b) && Touches(scene, b, z) && z.id == id;
      var p :| p in BoxTestPoints(b) && scene.contains(z.polygon, p);
    }
  }

  /** More boxes never take a zone away; in particular the order and the repetition of boxes do not
      matter, since lists with the same members contain each other. */
  lemma MoreBoxesMoreZones(scene: Scene, few: seq<BoundingBox>, many: seq<BoundingBox>, zones: seq<Zone>)
    requires forall b :: b in few ==> b in many
    ensures Analysis(scene, few, zones).triggeredZones <= Analysis(scene, many, zones).triggeredZones
    ensures Analysis(scene, few, zones).elevated ==> Analysis(scene, many, zones).elevated
    ensures (forall b :: b in many ==> b in few) ==> Analysis(scene, few, zones) == Analysis(scene, many, zones)
  {
  }
}
