/** The event id preimage `table|pk|lsn|tx|op|row_hash` and what can be read back from it. */
module Identity {
  import opened Basics
  import Texts

  predicate NoBar(s: string) {
    '|' !in s
  }

  /** str() of an int. */
  function IntText(n: int): string {
    if n < 0 then "-" + Texts.Padded(-n, 0) else Texts.Padded(n, 0)
  }

  /** An absent transaction id prints as nothing. */
  function TxText(tx: Option<int>): string {
    match tx
    case None => ""
    case Some(n) => IntText(n)
  }

  datatype Parts = Parts(table: string, pk: string, lsn: int, tx: Option<int>, op: string, rowHash: string)

  /** Table names are dotted identifiers, ops single letters and row hashes hex digests; the key text is anything. */
  predicate WellFormed(p: Parts) {
    NoBar(p.table) && NoBar(p.op) && NoBar(p.rowHash)
  }

  function Preimage(p: Parts): string {
    p.table + "|" + p.pk + "|" + IntText(p.lsn) + "|" + TxText(p.tx) + "|" + p.op + "|" + p.rowHash
  }

  lemma IntTextIsPlain(n: int)
    ensures NoBar(IntText(n)) && IntText(n) != ""
    ensures n < 0 <==> IntText(n)[0] == '-'
  {
  }

  lemma PaddedInjective(a: nat, b: nat)
    requires Texts.Padded(a, 0) == Texts.Padded(b, 0)
    ensures a == b
  {
    Texts.PaddedOrder(a, b, 0);
  }

  lemma IntTextInjective(a: int, b: int)
    requires IntText(a) == IntText(b)
    ensures a == b
  {
    IntTextIsPlain(a);
    IntTextIsPlain(b);
    if a < 0 {
      assert IntText(a)[0] == '-' && IntText(a)[1..] == Texts.Padded(-a, 0);
      assert b < 0 && IntText(b)[1..] == Texts.Padded(-b, 0);
      PaddedInjective(-a, -b);
    } else {
      PaddedInjective(a, b);
    }
  }

  lemma TxTextInjective(a: Option<int>, b: Option<int>)
    requires TxText(a) == TxText(b)
    ensures a == b
  {
    if a.Some? { IntTextIsPlain(a.value); }
    if b.Some? { IntTextIsPlain(b.value); }
    if a.Some? && b.Some? { IntTextInjective(a.value, b.value); }
  }

  /** The text before the first bar, and the rest, are determined. */
  lemma FirstBar(a: string, x: string, b: string, y: string)
    requires a + "|" + x == b + "|" + y && NoBar(a) && NoBar(b)
    ensures a == b && x == y
  {
    var s := a + "|" + x;
    assert s[|a|] == '|' && s[|b|] == '|';
    assert forall i :: 0 <= i < |a| ==> s[i] == a[i] != '|';
    assert forall i :: 0 <= i < |b| ==> s[i] == b[i] != '|';
    assert s[..|a|] == a && s[..|b|] == b;
    assert s[|a| + 1..] == x && s[|b| + 1..] == y;
  }

  /** The text after the last bar, and what precedes it, are determined. */
  lemma LastBar(x: string, a: string, y: string, b: string)
    requires x + "|" + a == y + "|" + b && NoBar(a) && NoBar(b)
    ensures x == y && a == b
  {
    var s := x + "|" + a;
    assert s[|x|] == '|' && s[|y|] == '|';
    assert forall i :: |x| < i < |s| ==> s[i] == a[i - |x| - 1] != '|';
    assert forall i :: |y| < i < |s| ==> s[i] == b[i - |y| - 1] != '|';
    assert s[..|x|] == x && s[..|y|] == y;
    assert s[|x| + 1..] == a && s[|y| + 1..] == b;
  }

  /** All six parts can be read back from the preimage, even when the key text contains bars. */
  lemma PreimageInjective(p: Parts, q: Parts)
    requires WellFormed(p) && WellFormed(q)
    ensures Preimage(p) == Preimage(q) <==> p == q
  {
    if Preimage(p) == Preimage(q) {
      hide IntText, TxText, NoBar;
      IntTextPlain(p);
      IntTextPlain(q);
      var p3, q3 := p.table + "|" + p.pk + "|" + IntText(p.lsn), q.table + "|" + q.pk + "|" + IntText(q.lsn);
      LastBar(p3 + "|" + TxText(p.tx) + "|" + p.op, p.rowHash, q3 + "|" + TxText(q.tx) + "|" + q.op, q.rowHash);
      LastBar(p3 + "|" + TxText(p.tx), p.op, q3 + "|" + TxText(q.tx), q.op);
      LastBar(p3, TxText(p.tx), q3, TxText(q.tx));
      LastBar(p.table + "|" + p.pk, IntText(p.lsn), q.table + "|" + q.pk, IntText(q.lsn));
      FirstBar(p.table, p.pk, q.table, q.pk);
      IntTextInjective(p.lsn, q.lsn);
      TxTextInjective(p.tx, q.tx);
    }
  }

  lemma IntTexts()
    ensures IntText(1700) == "1700" && IntText(-7) == "-7" && TxText(Some(9)) == "9" && TxText(None) == ""
  {
    assert Texts.Padded(17, 0) == "17";
    assert Texts.Padded(1700, 0) == "1700" by { assert Texts.Padded(170, 0) == "170"; }
  }

  /** Two preimages, part by part: a negative LSN keeps its sign, a missing transaction id leaves its place empty. */
  lemma PreimageLayout()
    ensures Preimage(Parts("shop.orders", "42", 1700, Some(9), "u", "ab")) ==
            "shop.orders|" + "42|" + "1700|" + "9|" + "u|" + "ab"
    ensures Preimage(Parts("shop.orders", "", -7, None, "d", "ab")) == "shop.orders|" + "|" + "-7|" + "|" + "d|" + "ab"
  {
    hide IntText, TxText;
    IntTexts();
    assert "shop.orders" + "|" == "shop.orders|";
    assert "shop.orders|" + "42" + "|" == "shop.orders|" + "42|";
    assert "shop.orders|" + "42|" + "1700" + "|" == "shop.orders|" + "42|" + "1700|";
    assert "shop.orders|" + "" + "|" == "shop.orders|" + "|";
  }

  lemma IntTextPlain(p: Parts)
    ensures NoBar(IntText(p.lsn)) && NoBar(TxText(p.tx))
  {
    IntTextIsPlain(p.lsn);
    if p.tx.Some? { IntTextIsPlain(p.tx.value); }
  }

  /** "|".join(str(v) for v in pk_values) */
  function JoinKey(values: seq<string>): string {
    if values == [] then ""
    else if |values| == 1 then values[0]
    else values[0] + "|" + JoinKey(values[1..])
  }

  function Bars(s: string): nat {
    if s == "" then 0 else (if s[0] == '|' then 1 else 0) + Bars(s[1..])
  }

  function BarsInAll(values: seq<string>): nat {
    if values == [] then 0 else Bars(values[0]) + BarsInAll(values[1..])
  }

  lemma {:induction false} BarsConcat(a: string, b: string)
    ensures Bars(a + b) == Bars(a) + Bars(b)
  {
    if a == "" {
      assert a + b == b;
    } else {
      assert (a + b)[1..] == a[1..] + b;
      BarsConcat(a[1..], b);
    }
  }

  lemma {:induction false} NoBarCount(s: string)
    ensures NoBar(s) <==> Bars(s) == 0
  {
    if s != "" {
      assert s == [s[0]] + s[1..];
      NoBarCount(s[1..]);
    }
  }

  lemma {:induction false} NoBarsCount(values: seq<string>)
    ensures (forall v :: v in values ==> NoBar(v)) <==> BarsInAll(values) == 0
  {
    if values != [] {
      assert values == [values[0]] + values[1..];
      NoBarCount(values[0]);
      NoBarsCount(values[1..]);
    }
  }

  /** A key text has the bars of its values and one between each two. */
  lemma {:induction false} BarsInKey(values: seq<string>)
    requires values != []
    ensures Bars(JoinKey(values)) == BarsInAll(values) + |values| - 1
  {
    if |values| > 1 {
      BarsInKey(values[1..]);
      BarsConcat(values[0] + "|", JoinKey(values[1..]));
      BarsConcat(values[0], "|");
      assert Bars("|") == 1;
    }
  }

  lemma {:induction false} BarFreeInjective(a: seq<string>, b: seq<string>)
    requires |a| == |b| && (forall v :: v in a ==> NoBar(v)) && (forall v :: v in b ==> NoBar(v))
    requires JoinKey(a) == JoinKey(b)
    ensures a == b
  {
    if |a| == 1 {
      assert a == [a[0]] && b == [b[0]];
    } else if |a| > 1 {
      FirstBar(a[0], JoinKey(a[1..]), b[0], JoinKey(b[1..]));
      BarFreeInjective(a[1..], b[1..]);
      assert a == [a[0]] + a[1..] && b == [b[0]] + b[1..];
    }
  }

  /** Two neighbouring values enter the key text only through their join. */
  lemma {:induction false} JoinNeighbours(a: seq<string>, i: nat, u: string, v: string)
    requires i + 1 < |a| && u + "|" + v == a[i] + "|" + a[i + 1]
    ensures JoinKey(a[i := u][i + 1 := v]) == JoinKey(a)
  {
    var b := a[i := u][i + 1 := v];
    if i > 0 {
      JoinNeighbours(a[1..], i - 1, u, v);
      assert b[1..] == a[1..][i - 1 := u][i := v];
    } else if |a| == 2 {
      assert a[1..] == [a[1]] && b[1..] == [v];
    } else {
      var rest := JoinKey(a[2..]);
      assert a[1..][1..] == a[2..] == b[1..][1..];
      assert JoinKey(a) == (a[0] + "|" + a[1]) + "|" + rest;
      assert JoinKey(b) == (u + "|" + v) + "|" + rest;
    }
  }

  /** A bar inside one of several values can be read as the separator instead. */
  lemma BarMoves(a: seq<string>, i: nat) returns (b: seq<string>)
    requires |a| > 1 && i < |a| && !NoBar(a[i])
    ensures |b| == |a| && b != a && JoinKey(b) == JoinKey(a)
  {
    var p :| 0 <= p < |a[i]| && a[i][p] == '|';
    var x, y := a[i][..p], a[i][p + 1..];
    assert a[i] == x + "|" + y;
    if i + 1 < |a| {
      JoinNeighbours(a, i, x, y + "|" + a[i + 1]);
      b := a[i := x][i + 1 := y + "|" + a[i + 1]];
      assert |b[i]| < |a[i]|;
    } else {
      JoinNeighbours(a, i - 1, a[i - 1] + "|" + x, y);
      b := a[i - 1 := a[i - 1] + "|" + x][i := y];
      assert |b[i]| < |a[i]|;
    }
  }

  /** A key text determines its column values exactly when there is one column or no value contains a bar. */
  lemma KeyTextDetermines(a: seq<string>)
    requires a != []
    ensures (forall b :: |b| == |a| && JoinKey(b) == JoinKey(a) ==> b == a) <==>
            |a| == 1 || forall v :: v in a ==> NoBar(v)
  {
    if |a| > 1 && exists v :: v in a && !NoBar(v) {
      var v :| v in a && !NoBar(v);
      var i :| 0 <= i < |a| && a[i] == v;
      var b := BarMoves(a, i);
    } else {
      forall b | |b| == |a| && JoinKey(b) == JoinKey(a) ensures b == a {
        if |a| == 1 {
          assert a == [a[0]] && b == [b[0]];
        } else {
          BarsInKey(a);
          BarsInKey(b);
          NoBarsCount(a);
          NoBarsCount(b);
          BarFreeInjective(a, b);
        }
      }
    }
  }

  /** Two rows of a two-column key that share their key text. */
  lemma JoinKeyCollides()
    ensures JoinKey(["a|b", "c"]) == JoinKey(["a", "b|c"]) && ["a|b", "c"] != ["a", "b|c"]
  {
    assert JoinKey(["a|b", "c"]) == "a|b" + "|" + "c";
    assert JoinKey(["a", "b|c"]) == "a" + "|" + "b|c";
    assert ["a|b", "c"][0] != ["a", "b|c"][0];
  }
}
