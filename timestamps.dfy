/** Snapshot names: `datetime.now().strftime("%Y%m%d_%H%M%S")` followed by ".md".
    The clock itself is not modelled; callers pass the current time in. */
module Timestamps {
  import opened Ordering

  /** A wall-clock time at second resolution, as `datetime.now()` yields it. */
  datatype Timestamp = Timestamp(year: nat, month: nat, day: nat, hour: nat, minute: nat, second: nat)
  {
    /** The ranges `datetime` guarantees; the year is kept to four digits so that
        `%Y` prints exactly four characters. */
    predicate Valid() {
      1000 <= year <= 9999 && 1 <= month <= 12 && 1 <= day <= 31
      && hour <= 23 && minute <= 59 && second <= 59
    }
  }

  /** `a` is an earlier time than `b`. */
  predicate Before(a: Timestamp, b: Timestamp) {
    a.year < b.year || (a.year == b.year &&
    (a.month < b.month || (a.month == b.month &&
    (a.day < b.day || (a.day == b.day &&
    (a.hour < b.hour || (a.hour == b.hour &&
    (a.minute < b.minute || (a.minute == b.minute && a.second < b.second)))))))))
  }

  function Pow10(w: nat): (p: nat)
    ensures p >= 1
  {
    if w == 0 then 1 else 10 * Pow10(w - 1)
  }

  predicate IsDigit(c: char) {
    '0' <= c <= '9'
  }

  function DigitChar(d: nat): (c: char)
    requires d < 10
    ensures IsDigit(c)
  {
    ('0' as int + d) as char
  }

  /** `n` in decimal, zero-padded to `width` digits (`%04d`, `%02d`). */
  function Digits(n: nat, width: nat): (s: string)
    requires n < Pow10(width)
    ensures |s| == width
    ensures forall i :: 0 <= i < |s| ==> IsDigit(s[i])
  {
    if width == 0 then [] else Digits(n / 10, width - 1) + [DigitChar(n % 10)]
  }

  /** Zero-padded decimals of the same width sort as the numbers they denote. */
  lemma {:induction false} DigitsMonotone(n: nat, m: nat, width: nat)
    requires n < m < Pow10(width)
    ensures LexLess(Digits(n, width), Digits(m, width))
  {
    var hn, hm := n / 10, m / 10;
    var cn, cm := [DigitChar(n % 10)], [DigitChar(m % 10)];
    LexConcat(Digits(hn, width - 1), cn, Digits(hm, width - 1), cm);
    if hn < hm {
      DigitsMonotone(hn, hm, width - 1);
    } else {
      assert n % 10 < m % 10;
    }
  }

  /** `strftime("%Y%m%d_%H%M%S")` */
  function Format(t: Timestamp): (s: string)
    requires t.Valid()
    ensures |s| == 15
    ensures forall i :: 0 <= i < |s| ==> IsDigit(s[i]) || s[i] == '_'
  {
    Digits(t.year, 4) + (Digits(t.month, 2) + (Digits(t.day, 2) + ("_" +
    (Digits(t.hour, 2) + (Digits(t.minute, 2) + Digits(t.second, 2))))))
  }

  /** The file a snapshot taken at `t` is stored in. */
  function SnapshotName(t: Timestamp): (s: string)
    requires t.Valid()
    ensures |s| == 18 && s[15..] == ".md"
    ensures forall i :: 0 <= i < 15 ==> IsDigit(s[i]) || s[i] == '_'
  {
    Format(t) + ".md"
  }

  /** The formatted time sorts as the time itself. */
  lemma FormatMonotone(a: Timestamp, b: Timestamp)
    requires a.Valid() && b.Valid() && Before(a, b)
    ensures LexLess(Format(a), Format(b))
  {
    var s5a, s5b := Digits(a.minute, 2) + Digits(a.second, 2), Digits(b.minute, 2) + Digits(b.second, 2);
    var s4a, s4b := Digits(a.hour, 2) + s5a, Digits(b.hour, 2) + s5b;
    var s3a, s3b := "_" + s4a, "_" + s4b;
    var s2a, s2b := Digits(a.day, 2) + s3a, Digits(b.day, 2) + s3b;
    var s1a, s1b := Digits(a.month, 2) + s2a, Digits(b.month, 2) + s2b;
    LexConcat(Digits(a.year, 4), s1a, Digits(b.year, 4), s1b);
    LexConcat(Digits(a.month, 2), s2a, Digits(b.month, 2), s2b);
    LexConcat(Digits(a.day, 2), s3a, Digits(b.day, 2), s3b);
    LexConcat("_", s4a, "_", s4b);
    LexConcat(Digits(a.hour, 2), s5a, Digits(b.hour, 2), s5b);
    LexConcat(Digits(a.minute, 2), Digits(a.second, 2), Digits(b.minute, 2), Digits(b.second, 2));
    if a.year < b.year {
      DigitsMonotone(a.year, b.year, 4);
    } else if a.month < b.month {
      DigitsMonotone(a.month, b.month, 2);
    } else if a.day < b.day {
      DigitsMonotone(a.day, b.day, 2);
    } else if a.hour < b.hour {
      DigitsMonotone(a.hour, b.hour, 2);
    } else if a.minute < b.minute {
      DigitsMonotone(a.minute, b.minute, 2);
    } else {
      DigitsMonotone(a.second, b.second, 2);
    }
  }

  /** A later snapshot gets a file name that sorts after the earlier one's, so
      `sorted(..., reverse=True)` lists snapshots from the newest to the oldest. */
  lemma LaterSnapshotSortsAfter(a: Timestamp, b: Timestamp)
    requires a.Valid() && b.Valid() && Before(a, b)
    ensures LexLess(SnapshotName(a), SnapshotName(b))
  {
    FormatMonotone(a, b);
    LexConcat(Format(a), ".md", Format(b), ".md");
  }

  /** Two snapshots get the same file name exactly when they are taken in the same second. */
  lemma SnapshotNameInjective(a: Timestamp, b: Timestamp)
    requires a.Valid() && b.Valid()
    ensures SnapshotName(a) == SnapshotName(b) <==> a == b
  {
    if a != b {
      if Before(a, b) {
        LaterSnapshotSortsAfter(a, b);
        LexIrreflexive(SnapshotName(b));
      } else {
        assert Before(b, a);
        LaterSnapshotSortsAfter(b, a);
        LexIrreflexive(SnapshotName(a));
      }
    }
  }
}
