/** Text order, decimal printing and the zero-padded replay position. */
module Texts {

  /** Strict lexicographic order by character code, as SQL and Python compare strings. */
  predicate StrLess(a: string, b: string) {
    if b == "" then false
    else if a == "" then true
    else a[0] < b[0] || (a[0] == b[0] && StrLess(a[1..], b[1..]))
  }

  lemma {:induction false} StrLessIrreflexive(a: string)
    ensures !StrLess(a, a)
  {
    if a != "" { StrLessIrreflexive(a[1..]); }
  }

  lemma {:induction false} StrLessTransitive(a: string, b: string, c: string)
    requires StrLess(a, b) && StrLess(b, c)
    ensures StrLess(a, c)
  {
    if a != "" && a[0] == b[0] == c[0] { StrLessTransitive(a[1..], b[1..], c[1..]); }
  }

  lemma {:induction false} StrLessTotal(a: string, b: string)
    ensures StrLess(a, b) || a == b || StrLess(b, a)
  {
    if a != "" && b != "" && a[0] == b[0] {
      StrLessTotal(a[1..], b[1..]);
      assert a == [a[0]] + a[1..] && b == [b[0]] + b[1..];
    }
  }

  /** Equally long prefixes decide first; only then the rest is compared. */
  lemma {:induction false} StrLessConcat(a: string, b: string, x: string, y: string)
    requires |a| == |b|
    ensures StrLess(a + x, b + y) <==> StrLess(a, b) || (a == b && StrLess(x, y))
  {
    if a == "" {
      assert a + x == x && b + y == y;
    } else {
      StrLessConcat(a[1..], b[1..], x, y);
      assert (a + x)[1..] == a[1..] + x && (b + y)[1..] == b[1..] + y;
      assert a == [a[0]] + a[1..] && b == [b[0]] + b[1..];
    }
  }

  // ------------------------------------------------------------------------ numbers

  function Digit(n: nat): char
    requires n < 10
  {
    ('0' as int + n) as char
  }

  /** printf("%0<width>d", n): at least `width` digits, more when the number needs them. */
  function Padded(n: nat, width: nat): (s: string)
    ensures |s| >= 1 && |s| >= width
    ensures forall i :: 0 <= i < |s| ==> '0' <= s[i] <= '9'
    decreases n + width
  {
    if n < 10 && width <= 1 then [Digit(n)]
    else Padded(n / 10, if width == 0 then 0 else width - 1) + [Digit(n % 10)]
  }

  function Pow10(k: nat): (p: nat)
    ensures p >= 1
  {
    if k == 0 then 1 else 10 * Pow10(k - 1)
  }

  lemma {:induction false} PaddedWidth(n: nat, width: nat)
    requires width >= 1 && n < Pow10(width)
    ensures |Padded(n, width)| == width
    decreases width
  {
    if width > 1 {
      assert n / 10 < Pow10(width - 1);
      PaddedWidth(n / 10, width - 1);
    } else {
      assert Pow10(1) == 10 * Pow10(0);
    }
  }

  /** Two printed numbers of equal length compare as text exactly as they compare as numbers. */
  lemma {:induction false} PaddedOrder(a: nat, b: nat, w: nat)
    requires |Padded(a, w)| == |Padded(b, w)|
    ensures StrLess(Padded(a, w), Padded(b, w)) <==> a < b
    ensures Padded(a, w) == Padded(b, w) <==> a == b
    decreases a + w
  {
    var w' := if w == 0 then 0 else w - 1;
    if |Padded(a, w)| > 1 {
      var x, y := Padded(a / 10, w'), Padded(b / 10, w');
      assert Padded(a, w) == x + [Digit(a % 10)];
      assert Padded(b, w) == y + [Digit(b % 10)];
      PaddedOrder(a / 10, b / 10, w');
      StrLessConcat(x, y, [Digit(a % 10)], [Digit(b % 10)]);
      assert StrLess([Digit(a % 10)], [Digit(b % 10)]) <==> a % 10 < b % 10;
      assert x == (x + [Digit(a % 10)])[..|x|] && y == (y + [Digit(b % 10)])[..|y|];
    }
  }

  /** The Kafka position of a replay record, `%05d:%020d`. */
  function Position(partition: nat, offset: nat): string {
    Padded(partition, 5) + ":" + Padded(offset, 20)
  }

  function Zeros(n: nat): string {
    seq(n, _ => '0')
  }

  lemma {:induction false} ZeroPadded(n: nat, width: nat)
    requires n < 10 && width >= 1
    ensures Padded(n, width) == Zeros(width - 1) + [Digit(n)]
  {
    if width > 1 {
      ZeroPadded(0, width - 1);
      assert Zeros(width - 1) == Zeros(width - 2) + ['0'];
    }
  }

  /** Five digits, a colon, twenty digits, filled up with zeros on the left. */
  lemma PositionLayout()
    ensures Position(3, 42) == "00003" + ":" + Zeros(18) + "42"
  {
    ZeroPadded(3, 5);
    ZeroPadded(4, 19);
    assert Zeros(4) == "0000";
    assert Padded(42, 20) == Padded(4, 19) + "2";
    assert Zeros(18) + "4" + "2" == Zeros(18) + "42";
  }

  predicate PairLess(p1: nat, o1: nat, p2: nat, o2: nat) {
    p1 < p2 || (p1 == p2 && o1 < o2)
  }

  /** The text order of positions is the order of (partition, offset) pairs. */
  lemma PositionOrder(p1: nat, o1: nat, p2: nat, o2: nat)
    requires p1 < 100_000 && p2 < 100_000
    requires o1 < 100_000_000_000_000_000_000 && o2 < 100_000_000_000_000_000_000
    ensures StrLess(Position(p1, o1), Position(p2, o2)) <==> PairLess(p1, o1, p2, o2)
    ensures Position(p1, o1) == Position(p2, o2) <==> p1 == p2 && o1 == o2
  {
    PowersInUse();
    PaddedWidth(p1, 5);
    PaddedWidth(p2, 5);
    PaddedWidth(o1, 20);
    PaddedWidth(o2, 20);
    PaddedOrder(p1, p2, 5);
    PaddedOrder(o1, o2, 20);
    var a, b := Padded(p1, 5) + ":", Padded(p2, 5) + ":";
    StrLessConcat(Padded(p1, 5), Padded(p2, 5), ":", ":");
    StrLessIrreflexive(":");
    StrLessConcat(a, b, Padded(o1, 20), Padded(o2, 20));
    assert a[..5] == Padded(p1, 5) && b[..5] == Padded(p2, 5);
    assert Position(p1, o1)[..6] == a && Position(p2, o2)[..6] == b;
    assert Position(p1, o1)[6..] == Padded(o1, 20) && Position(p2, o2)[6..] == Padded(o2, 20);
  }

  lemma PowersInUse()
    ensures Pow10(5) == 100_000 && Pow10(20) == 100_000_000_000_000_000_000
  {
    assert Pow10(5) == 100_000;
    assert Pow10(10) == 100_000 * 100_000;
    assert Pow10(15) == 100_000 * 100_000 * 100_000;
    assert Pow10(20) == 100_000 * 100_000 * 100_000 * 100_000;
  }

  lemma FiveDigits()
    ensures Padded(20_000, 5)[0] == '2' && |Padded(20_000, 5)| == 5
  {
    assert Padded(200, 3) == Padded(2, 1) + "0" + "0" by {
      assert Padded(200, 3) == Padded(20, 2) + "0";
    }
    assert Padded(20_000, 5) == Padded(200, 3) + "0" + "0" by {
      assert Padded(20_000, 5) == Padded(2_000, 4) + "0";
    }
  }

  lemma SixDigits()
    ensures Padded(100_000, 5)[0] == '1'
  {
    assert Padded(100, 2) == Padded(1, 0) + "0" + "0" by {
      assert Padded(100, 2) == Padded(10, 1) + "0";
    }
    assert Padded(10_000, 4) == Padded(100, 2) + "0" + "0" by {
      assert Padded(10_000, 4) == Padded(1_000, 3) + "0";
    }
    assert Padded(100_000, 5) == Padded(10_000, 4) + "0";
  }

  /** Beyond five digits the partition is not truncated, and the text order no longer follows the numbers. */
  lemma SixDigitsComeFirst()
    ensures StrLess(Position(100_000, 0), Position(20_000, 0))
  {
    hide Padded;
    FiveDigits();
    SixDigits();
    assert Position(100_000, 0)[0] == '1' && Position(20_000, 0)[0] == '2';
  }

  const MAX_OFFSET := 100_000_000_000_000_000_000

  /** Positions of partitions below `partitions` compare as text as their numbers do. */
  ghost predicate ComparesNumerically(partitions: nat) {
    forall p1: nat, o1: nat, p2: nat, o2: nat {:trigger Position(p1, o1), Position(p2, o2)} ::
      p1 < partitions && p2 < partitions && o1 < MAX_OFFSET && o2 < MAX_OFFSET ==>
        (StrLess(Position(p1, o1), Position(p2, o2)) <==> PairLess(p1, o1, p2, o2))
  }

  /** The replay position orders the replays of a topic exactly as long as it has at most 100000 partitions. */
  lemma PositionOrderBound(partitions: nat)
    ensures ComparesNumerically(partitions) <==> partitions <= 100_000
  {
    if partitions <= 100_000 {
      forall p1: nat, o1: nat, p2: nat, o2: nat |
        p1 < partitions && p2 < partitions && o1 < MAX_OFFSET && o2 < MAX_OFFSET
        ensures StrLess(Position(p1, o1), Position(p2, o2)) <==> PairLess(p1, o1, p2, o2)
      {
        PositionOrder(p1, o1, p2, o2);
      }
    } else {
      SixDigitsComeFirst();
      assert !PairLess(100_000, 0, 20_000, 0);
    }
  }
}
