/** The text key under which a binding remembers its context. */
module PolicyContextKey {
  import opened Basics
  import opened Numerals
  import opened PolicyCatalog

  function Receipt(at: Option<Instant>): string {
    if at.Some? then Stamp(at.value) else "UNSPECIFIED"
  }

  function ContextKey(c: Context): string {
    c.jurisdiction + ("|" + (c.product + ("|" + (c.event + ("|" + Receipt(c.receivedAt))))))
  }

  /** No bar in a jurisdiction code, product code or lifecycle event. */
  predicate Plain(c: Context) { '|' !in c.jurisdiction && '|' !in c.product && '|' !in c.event }

  lemma {:induction false} SplitAtBar(a: string, x: string, b: string, y: string)
    requires '|' !in a && '|' !in b && a + ("|" + x) == b + ("|" + y)
    ensures a == b && x == y
  {
    var l, r := a + ("|" + x), b + ("|" + y);
    assert l[|a|] == '|' && r[|b|] == '|';
    assert |a| == |b|;
    assert a == l[..|a|] && b == r[..|b|];
    assert x == l[|a| + 1..] && y == r[|b| + 1..];
  }

  lemma {:induction false} ReceiptIsExact(a: Option<Instant>, b: Option<Instant>)
    ensures Receipt(a) == Receipt(b) <==> a == b
  {
    if a.Some? { ReadWhatWasStamped(a.value); }
    if b.Some? { ReadWhatWasStamped(b.value); }
    assert "UNSPECIFIED"[0] == 'U';
  }

  /** Among plain contexts the key identifies the context. */
  lemma {:induction false} KeyIdentifiesContext(c: Context, d: Context)
    requires Plain(c) && Plain(d)
    ensures ContextKey(c) == ContextKey(d) <==> c == d
  {
    if ContextKey(c) == ContextKey(d) {
      SplitAtBar(c.jurisdiction, c.product + ("|" + (c.event + ("|" + Receipt(c.receivedAt)))),
                 d.jurisdiction, d.product + ("|" + (d.event + ("|" + Receipt(d.receivedAt)))));
      SplitAtBar(c.product, c.event + ("|" + Receipt(c.receivedAt)), d.product,
          d.event + ("|" + Receipt(d.receivedAt)));
      SplitAtBar(c.event, Receipt(c.receivedAt), d.event, Receipt(d.receivedAt));
      ReceiptIsExact(c.receivedAt, d.receivedAt);
    }
  }

  // ---------------------------------------------------------------------------------------------
  // Exactly the plain contexts

  function Bars(s: string): nat {
    if s == [] then 0 else Bars(s[1..]) + (if s[0] == '|' then 1 else 0)
  }

  lemma {:induction false} BarsJoin(a: string, b: string)
    ensures Bars(a + b) == Bars(a) + Bars(b)
  {
    if a == [] {
      assert a + b == b;
    } else {
      assert (a + b)[1..] == a[1..] + b;
      BarsJoin(a[1..], b);
    }
  }

  lemma {:induction false} NoBars(s: string)
    ensures Bars(s) == 0 <==> '|' !in s
  {
    if s != [] { NoBars(s[1..]); }
  }

  lemma {:induction false} BarsBetween(a: string, b: string)
    ensures Bars(a + ("|" + b)) == Bars(a) + 1 + Bars(b)
  {
    BarsJoin(a, "|" + b);
    BarsJoin("|", b);
    assert Bars("|") == 1 by { assert "|"[1..] == ""; }
  }

  lemma {:induction false} ReceiptHasNoBar(at: Option<Instant>)
    ensures Bars(Receipt(at)) == 0
  {
    NoBars(Receipt(at));
    if at.Some? { ReadWhatWasStamped(at.value); }
  }

  /** A key has three bars and those of its codes. */
  lemma {:induction false} BarsOfKey(c: Context)
    ensures Bars(ContextKey(c)) == 3 + Bars(c.jurisdiction) + Bars(c.product) + Bars(c.event)
  {
    ReceiptHasNoBar(c.receivedAt);
    BarsBetween(c.event, Receipt(c.receivedAt));
    BarsBetween(c.product, c.event + ("|" + Receipt(c.receivedAt)));
    BarsBetween(c.jurisdiction, c.product + ("|" + (c.event + ("|" + Receipt(c.receivedAt)))));
  }

  lemma {:induction false} PlainByBars(c: Context)
    ensures Plain(c) <==> Bars(ContextKey(c)) == 3
  {
    BarsOfKey(c);
    NoBars(c.jurisdiction);
    NoBars(c.product);
    NoBars(c.event);
  }

  lemma {:induction false} SplitAt(s: string) returns (a: string, b: string)
    requires '|' in s
    ensures s == a + ("|" + b)
  {
    var i :| 0 <= i < |s| && s[i] == '|';
    a, b := s[..i], s[i + 1..];
  }

  lemma {:induction false} Reassociate(a: string, b: string, c: string)
    ensures (a + ("|" + b)) + ("|" + c) == a + ("|" + (b + ("|" + c)))
  {
  }

  /** A context with a bar in a code has a rival with the same key: shift the bar. */
  lemma {:induction false} Rival(c: Context) returns (d: Context)
    requires !Plain(c)
    ensures d != c && ContextKey(d) == ContextKey(c)
  {
    var r := Receipt(c.receivedAt);
    if '|' in c.jurisdiction {
      var a, b := SplitAt(c.jurisdiction);
      d := Context(a, b, c.product + ("|" + c.event), c.receivedAt);
      Reassociate(a, b, c.product + ("|" + (c.event + ("|" + r))));
      Reassociate(c.product, c.event, r);
      assert |d.jurisdiction| < |c.jurisdiction|;
    } else if '|' in c.product {
      var a, b := SplitAt(c.product);
      d := Context(c.jurisdiction, a, b + ("|" + c.event), c.receivedAt);
      Reassociate(a, b, c.event + ("|" + r));
      Reassociate(b, c.event, r);
      assert |d.product| < |c.product|;
    } else {
      var a, b := SplitAt(c.event);
      d := Context(c.jurisdiction + ("|" + c.product), a, b, c.receivedAt);
      Reassociate(c.jurisdiction, c.product, a + ("|" + (b + ("|" + r))));
      Reassociate(a, b, r);
      assert |d.jurisdiction| > |c.jurisdiction|;
    }
  }

  /** The key identifies a context, among all contexts, exactly when no code of it has a bar. */
  lemma {:induction false} KeyIsExactForPlain(c: Context)
    ensures Plain(c) <==> forall d: Context :: ContextKey(d) == ContextKey(c) ==> d == c
  {
    if Plain(c) {
      forall d: Context | ContextKey(d) == ContextKey(c) ensures d == c {
        PlainByBars(c);
        PlainByBars(d);
        KeyIdentifiesContext(c, d);
      }
    } else {
      var d := Rival(c);
    }
  }

  /** Two different contexts with one key: one could be served the other's binding. */
  lemma {:induction false} BarsCollide() returns (c: Context, d: Context)
    ensures c != d && ContextKey(c) == ContextKey(d)
  {
    c := Context("US", "A|B", "E", None);
    d := Context("US|A", "B", "E", None);
    assert ContextKey(c) == "US|A|B|E|UNSPECIFIED" == ContextKey(d);
    assert c.jurisdiction != d.jurisdiction;
  }
}
