/** Snapshot file names: a fixed-width UTC stamp, then the frame id. Their order is time order. */
module SnapshotNames {

  ghost predicate Less(a: string, b: string) {
    if |b| == 0 then false
    else if |a| == 0 then true
    else a[0] < b[0] || (a[0] == b[0] && Less(a[1..], b[1..]))
  }

  /** Python's comparison of strings, by code point. */
  predicate LessOrEqual(a: string, b: string) {
    if |a| == 0 then true
    else if |b| == 0 then false
    else a[0] < b[0] || (a[0] == b[0] && LessOrEqual(a[1..], b[1..]))
  }

  lemma {:induction false} OrderBasics(a: string, b: string)
    ensures LessOrEqual(a, b) || LessOrEqual(b, a)
    ensures LessOrEqual(a, b) <==> Less(a, b) || a == b
    ensures Less(a, b) ==> !Less(b, a) && a != b
  {
    if |a| > 0 && |b| > 0 {
      OrderBasics(a[1..], b[1..]);
      assert a == [a[0]] + a[1..] && b == [b[0]] + b[1..];
    }
  }

  lemma {:induction false} OrderTransitive(a: string, b: string, c: string)
    requires LessOrEqual(a, b) && LessOrEqual(b, c)
    ensures LessOrEqual(a, c)
  {
    if |a| > 0 {
      if a[0] == b[0] && b[0] == c[0] {
        OrderTransitive(a[1..], b[1..], c[1..]);
      }
    }
  }

  /** Between strings that start with parts of one length, those parts decide, unless they are equal. */
  lemma {:induction false} PrefixDecides(a: string, b: string, restA: string, restB: string)
    requires |a| == |b|
    ensures Less(a + restA, b + restB) <==> Less(a, b) || (a == b && Less(restA, restB))
  {
    if |a| == 0 {
      assert a + restA == restA && b + restB == restB;
    } else {
      PrefixDecides(a[1..], b[1..], restA, restB);
      assert (a + restA)[1..] == a[1..] + restA && (b + restB)[1..] == b[1..] + restB;
      assert a == [a[0]] + a[1..] && b == [b[0]] + b[1..];
    }
  }

  function Digit(d: nat): char
    requires d < 10
  {
    '0' + d as char
  }

  /** The last `width` decimal digits of `n`, zero-padded. */
  function Pad(n: nat, width: nat): (s: string)
    ensures |s| == width
  {
    if width == 0 then "" else Pad(n / 10, width - 1) + [Digit(n % 10)]
  }

  function Pow10(k: nat): nat {
    if k == 0 then 1 else 10 * Pow10(k - 1)
  }

  lemma {:induction false} PadOrder(x: nat, y: nat, width: nat)
    requires x < Pow10(width) && y < Pow10(width)
    ensures Less(Pad(x, width), Pad(y, width)) <==> x < y
    ensures Pad(x, width) == Pad(y, width) <==> x == y
  {
    if width > 0 {
      var a, b := Pad(x / 10, width - 1), Pad(y / 10, width - 1);
      PadOrder(x / 10, y / 10, width - 1);
      var da, db := [Digit(x % 10)], [Digit(y % 10)];
      PrefixDecides(a, b, da, db);
      assert da[1..] == [] && db[1..] == [];
      assert Less(da, db) <==> x % 10 < y % 10;
      assert Pad(x, width) == Pad(y, width) ==> a == b && da == db by {
        assert Pad(x, width)[..width - 1] == a && Pad(y, width)[..width - 1] == b;
        assert Pad(x, width)[width - 1] == da[0] && Pad(y, width)[width - 1] == db[0];
      }
    }
  }

  function Decimal(n: nat): string {
    if n < 10 then [Digit(n)] else Decimal(n / 10) + [Digit(n % 10)]
  }

  /** The fields `strftime("%Y%m%dT%H%M%S%f")` prints. Years of four digits are printed with four. */
  datatype Timestamp = Timestamp(year: nat, month: nat, day: nat, hour: nat, minute: nat, second: nat, micro: nat)

  predicate InRange(t: Timestamp) {
    && 1000 <= t.year <= 9999 && 1 <= t.month <= 12 && 1 <= t.day <= 31
    && t.hour < 24 && t.minute < 60 && t.second < 60 && t.micro < 1000000
  }

  /** Time order of two UTC times: by the first field that differs. */
  ghost predicate Before(a: Timestamp, b: Timestamp) {
    a.year < b.year || (a.year == b.year && (
    a.month < b.month || (a.month == b.month && (
    a.day < b.day || (a.day == b.day && (
    a.hour < b.hour || (a.hour == b.hour && (
    a.minute < b.minute || (a.minute == b.minute && (
    a.second < b.second || (a.second == b.second && a.micro < b.micro)))))))))))
  }

  function Clock(t: Timestamp): string {
    Pad(t.hour, 2) + (Pad(t.minute, 2) + (Pad(t.second, 2) + Pad(t.micro, 6)))
  }

  function Stamp(t: Timestamp): string {
    Pad(t.year, 4) + (Pad(t.month, 2) + (Pad(t.day, 2) + ("T" + Clock(t))))
  }

  function ImageName(t: Timestamp, frameId: nat): string {
    Stamp(t) + ("_frame" + Decimal(frameId) + ".jpg")
  }

  lemma ClockOrder(a: Timestamp, b: Timestamp)
    requires InRange(a) && InRange(b)
    ensures |Clock(a)| == |Clock(b)|
    ensures Less(Clock(a), Clock(b)) <==>
              a.hour < b.hour || (a.hour == b.hour && (
              a.minute < b.minute || (a.minute == b.minute && (
              a.second < b.second || (a.second == b.second && a.micro < b.micro)))))
    ensures Clock(a) == Clock(b) <==>
              a.hour == b.hour && a.minute == b.minute && a.second == b.second && a.micro == b.micro
  {
    Widths();
    PadOrder(a.hour, b.hour, 2);
    PadOrder(a.minute, b.minute, 2);
    PadOrder(a.second, b.second, 2);
    PadOrder(a.micro, b.micro, 6);
    var sa, sb := Pad(a.second, 2) + Pad(a.micro, 6), Pad(b.second, 2) + Pad(b.micro, 6);
    var ma, mb := Pad(a.minute, 2) + sa, Pad(b.minute, 2) + sb;
    Field(Pad(a.second, 2), Pad(b.second, 2), Pad(a.micro, 6), Pad(b.micro, 6));
    Field(Pad(a.minute, 2), Pad(b.minute, 2), sa, sb);
    Field(Pad(a.hour, 2), Pad(b.hour, 2), ma, mb);
  }

  lemma Widths()
    ensures Pow10(2) == 100 && Pow10(4) == 10000 && Pow10(6) == 1000000
  {
  }

  lemma Field(a: string, b: string, restA: string, restB: string)
    requires |a| == |b|
    ensures Less(a + restA, b + restB) <==> Less(a, b) || (a == b && Less(restA, restB))
    ensures a + restA == b + restB <==> a == b && restA == restB
  {
    PrefixDecides(a, b, restA, restB);
    if a + restA == b + restB {
      assert (a + restA)[..|a|] == a && (b + restB)[..|b|] == b;
      assert (a + restA)[|a|..] == restA && (b + restB)[|b|..] == restB;
    }
  }

  /** The order of stamps is the order of times, both ways. */
  lemma StampOrder(a: Timestamp, b: Timestamp)
    requires InRange(a) && InRange(b)
    ensures |Stamp(a)| == |Stamp(b)|
    ensures Less(Stamp(a), Stamp(b)) <==> Before(a, b)
    ensures Stamp(a) == Stamp(b) <==> a == b
  {
    Widths();
    ClockOrder(a, b);
    PadOrder(a.year, b.year, 4);
    PadOrder(a.month, b.month, 2);
    PadOrder(a.day, b.day, 2);
    var ta, tb := "T" + Clock(a), "T" + Clock(b);
    var da, db := Pad(a.day, 2) + ta, Pad(b.day, 2) + tb;
    var ma, mb := Pad(a.month, 2) + da, Pad(b.month, 2) + db;
    Field("T", "T", Clock(a), Clock(b));
    Field(Pad(a.day, 2), Pad(b.day, 2), ta, tb);
    Field(Pad(a.month, 2), Pad(b.month, 2), da, db);
    Field(Pad(a.year, 4), Pad(b.year, 4), ma, mb);
    OrderBasics("T", "T");
  }

  /** A later snapshot has the greater name, whatever the frame ids. */
  lemma LaterNameIsGreater(a: Timestamp, b: Timestamp, i: nat, j: nat)
    requires InRange(a) && InRange(b) && Before(a, b)
    ensures Less(ImageName(a, i), ImageName(b, j))
  {
    StampOrder(a, b);
    PrefixDecides(Stamp(a), Stamp(b), "_frame" + Decimal(i) + ".jpg", "_frame" + Decimal(j) + ".jpg");
  }

  // ----- Reading names back -----

  predicate IsDigit(c: char) {
    '0' <= c <= '9'
  }

  /** The number that decimal digits stand for. */
  function Value(s: string): int {
    if |s| == 0 then 0 else 10 * Value(s[..|s| - 1]) + (s[|s| - 1] as int - '0' as int)
  }

  lemma {:induction false} DecimalReads(n: nat)
    ensures Value(Decimal(n)) == n
    ensures |Decimal(n)| > 0 && forall c :: c in Decimal(n) ==> IsDigit(c)
    ensures Decimal(n)[0] == '0' ==> n == 0
  {
    var s := Decimal(n);
    if n >= 10 {
      DecimalReads(n / 10);
      assert s[..|s| - 1] == Decimal(n / 10);
    } else {
      assert s[..0] == "";
    }
  }

  lemma {:induction false} PadReads(n: nat, width: nat)
    requires n < Pow10(width)
    ensures Value(Pad(n, width)) == n
  {
    if width > 0 {
      var s := Pad(n, width);
      PadReads(n / 10, width - 1);
      assert s[..|s| - 1] == Pad(n / 10, width - 1);
    }
  }

  /** A name tells time and frame: two snapshots have the same name only if both are the same. */
  lemma NameDetermines(a: Timestamp, b: Timestamp, i: nat, j: nat)
    requires InRange(a) && InRange(b)
    ensures ImageName(a, i) == ImageName(b, j) <==> a == b && i == j
  {
    StampOrder(a, b);
    var restA, restB := "_frame" + Decimal(i) + ".jpg", "_frame" + Decimal(j) + ".jpg";
    Field(Stamp(a), Stamp(b), restA, restB);
    if restA == restB {
      assert restA[6..|restA| - 4] == Decimal(i) && restB[6..|restB| - 4] == Decimal(j);
      DecimalReads(i);
      DecimalReads(j);
    }
  }

  lemma Parts(a: string, b: string)
    ensures (a + b)[..|a|] == a && (a + b)[|a|..] == b
  {
  }

  /** The form of the time of day: two digits each for hour, minute and second, six for the fraction. */
  lemma ClockForm(t: Timestamp)
    requires InRange(t)
    ensures var s := Clock(t);
            && |s| == 12
            && Value(s[..2]) == t.hour && Value(s[2..][..2]) == t.minute && Value(s[2..][2..][..2]) == t.second
            && Value(s[2..][2..][2..]) == t.micro
  {
    Widths();
    PadReads(t.hour, 2);
    PadReads(t.minute, 2);
    PadReads(t.second, 2);
    PadReads(t.micro, 6);
    var seconds := Pad(t.second, 2) + Pad(t.micro, 6);
    Parts(Pad(t.hour, 2), Pad(t.minute, 2) + seconds);
    Parts(Pad(t.minute, 2), seconds);
    Parts(Pad(t.second, 2), Pad(t.micro, 6));
  }

  /** The form of a stamp: four digits for the year, two each for month and day, a T, the time of day. */
  lemma StampForm(t: Timestamp)
    requires InRange(t)
    ensures var s := Stamp(t);
            && |s| == 21
            && Value(s[..4]) == t.year && Value(s[4..][..2]) == t.month && Value(s[4..][2..][..2]) == t.day
            && s[4..][2..][2..] == "T" + Clock(t)
  {
    Widths();
    PadReads(t.year, 4);
    PadReads(t.month, 2);
    PadReads(t.day, 2);
    var time := "T" + Clock(t);
    Parts(Pad(t.year, 4), Pad(t.month, 2) + (Pad(t.day, 2) + time));
    Parts(Pad(t.month, 2), Pad(t.day, 2) + time);
    Parts(Pad(t.day, 2), time);
  }

  /** The form of a name: the stamp, then the frame id in decimal. */
  lemma NameForm(t: Timestamp, i: nat)
    requires InRange(t)
    ensures ImageName(t, i) == Stamp(t) + "_frame" + Decimal(i) + ".jpg"
    ensures |Stamp(t)| == 21 && Value(Decimal(i)) == i && forall c :: c in Decimal(i) ==> IsDigit(c)
  {
    StampForm(t);
    DecimalReads(i);
    assert Stamp(t) + ("_frame" + Decimal(i) + ".jpg") == Stamp(t) + "_frame" + Decimal(i) + ".jpg";
  }
}
