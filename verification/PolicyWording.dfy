/** The reasons for a review in words, and that the words tell exactly the reasons. */
module PolicyWording {
  import opened Basics
  import opened Numerals
  import opened PolicyCatalog
  import opened PolicyReasons

  const ANCESTRY := "jurisdiction ancestry "
  const OVERLAPPING := " overlapping released versions effective as of"

  function CycleText(c: Code): string { ANCESTRY + "contains a cycle at \"" + c + "\"" }

  function UnknownText(c: Code): string { ANCESTRY + "references unknown code \"" + c + "\"" }

  function UncoveredText(c: Code): string { "jurisdiction \"" + c + "\" does not have reviewed COVERED status" }

  function SourcelessText(c: Code): string { "jurisdiction \"" + c + "\" has no registered policy source" }

  function UnrecordedText(name: string): string { "policy source \"" + name + "\" has no recorded revision" }

  function ObjectiveText(name: string): string {
    "policy source \"" + name + "\" has an invalid freshness objective"
  }

  function StaleText(name: string, d: Instant): string {
    "policy source \"" + name + "\" exceeded its freshness objective at" + (" " + Stamp(d))
  }

  function ReceiptText(id: nat): string {
    "policy applicability \"" + Render(id) + "\" requires the original application receipt time"
  }

  function UnsupportedText(id: nat, rule: string): string {
    "policy applicability \"" + Render(id) + ("\"" + (" uses unsupported transition rule \"" + rule + "\""))
  }

  function OverlapText(k: string, n: nat, t: Instant): string {
    "rule \"" + k + "\" has" + (" " + Render(n)) + OVERLAPPING + (" " + Stamp(t))
  }

  function Describe(r: Reason): string {
    match r
    case Cycle(c) => CycleText(c)
    case UnknownCode(c) => UnknownText(c)
    case NotCovered(c) => UncoveredText(c)
    case NoSource(c) => SourcelessText(c)
    case NoRevision(s) => UnrecordedText(s.name)
    case InvalidObjective(s) => ObjectiveText(s.name)
    case Stale(s, d) => StaleText(s.name, d)
    case NeedsReceipt(row) => ReceiptText(row.id)
    case Unsupported(row) => UnsupportedText(row.id, Rule(row))
    case Overlap(k, n, t) => OverlapText(k, n, t)
  }

  function Rule(row: Row): string { if row.transition.Some? then row.transition.value else "" }

  function Reasons(rs: seq<Reason>): seq<string> { seq(|rs|, i requires 0 <= i < |rs| => Describe(rs[i])) }

  /** What of a reason is told: of a source its name, of a row its id, and its rule where the rule is the problem. */
  predicate ToldAlike(a: Reason, b: Reason) {
    match a
    case NoRevision(s) => b.NoRevision? && b.source.name == s.name
    case InvalidObjective(s) => b.InvalidObjective? && b.source.name == s.name
    case Stale(s, d) => b.Stale? && b.source.name == s.name && b.deadline == d
    case NeedsReceipt(row) => b.NeedsReceipt? && b.row.id == row.id
    case Unsupported(row) => b.Unsupported? && b.row.id == row.id && Rule(b.row) == Rule(row)
    case _ => a == b
  }

  // ---------------------------------------------------------------------------------------------
  // Which kind of reason a text tells

  function KindOf(r: Reason): nat {
    match r
    case Cycle(_) => 0
    case UnknownCode(_) => 1
    case NotCovered(_) => 2
    case NoSource(_) => 3
    case NoRevision(_) => 4
    case InvalidObjective(_) => 5
    case Stale(_, _) => 6
    case NeedsReceipt(_) => 7
    case Unsupported(_) => 8
    case Overlap(_, _, _) => 9
  }

  /** The kind can be read off five places of the text: the first, eighth, fourteenth, twenty-third and last letter. */
  function KindIn(t: string): nat {
    if |t| < 23 || t[0] == 'r' then 9
    else if t[0] == 'j' then
      if t[13] == 'a' then (if t[22] == 'c' then 0 else 1) else if t[|t| - 1] == 's' then 2 else 3
    else if t[7] == 's' then
      if t[|t| - 1] == 'n' then 4 else if t[|t| - 1] == 'e' then 5 else 6
    else if t[|t| - 1] == 'e' then 7 else 8
  }

  /** A text put together from three parts begins like the first and ends like the last. */
  lemma {:induction false} Framed(p: string, x: string, q: string)
    requires q != []
    ensures |p + x + q| == |p| + |x| + |q| && (p + x + q)[|p + x + q| - 1] == q[|q| - 1]
    ensures forall i :: 0 <= i < |p| ==> (p + x + q)[i] == p[i]
  {
  }

  lemma {:induction false} AncestryKinds(c: Code)
    ensures KindIn(CycleText(c)) == 0 && KindIn(UnknownText(c)) == 1
  {
    assert ANCESTRY[0] == 'j' && ANCESTRY[13] == 'a' && |ANCESTRY| == 22;
    assert KindIn(CycleText(c)) == 0 by { Framed(ANCESTRY, "contains a cycle at \"" + c, "\""); }
    assert KindIn(UnknownText(c)) == 1 by { Framed(ANCESTRY, "references unknown code \"" + c, "\""); }
  }

  lemma {:induction false} JurisdictionKinds(c: Code)
    ensures KindIn(UncoveredText(c)) == 2 && KindIn(SourcelessText(c)) == 3
  {
    assert KindIn(UncoveredText(c)) == 2 by {
      Framed("jurisdiction \"", c, "\" does not have reviewed COVERED status");
    }
    assert KindIn(SourcelessText(c)) == 3 by {
      Framed("jurisdiction \"", c, "\" has no registered policy source");
    }
  }

  lemma {:induction false} SourceKinds(name: string)
    ensures KindIn(UnrecordedText(name)) == 4 && KindIn(ObjectiveText(name)) == 5
  {
    assert KindIn(UnrecordedText(name)) == 4 by { Framed("policy source \"", name, "\" has no recorded revision"); }
    assert KindIn(ObjectiveText(name)) == 5 by {
      Framed("policy source \"", name, "\" has an invalid freshness objective");
    }
  }

  lemma {:induction false} EndsOpen(p: string, x: string, q: string)
    requires |p| == 15 && p[0] == 'p' && p[7] == 's' && |x| > 7 && q != []
    requires q[|q| - 1] != 'n' && q[|q| - 1] != 'e'
    ensures KindIn(p + x + q) == 6
  {
  }

  lemma {:induction false} StaleKind(name: string, d: Instant)
    ensures KindIn(StaleText(name, d)) == 6
  {
    ReadWhatWasStamped(d);
    var p, x, q := "policy source \"", name + "\" exceeded its freshness objective at", " " + Stamp(d);
    assert StaleText(name, d) == p + x + q;
    EndsOpen(p, x, q);
  }

  lemma {:induction false} RowKinds(id: nat, rule: string)
    ensures KindIn(ReceiptText(id)) == 7 && KindIn(UnsupportedText(id, rule)) == 8
  {
    assert KindIn(ReceiptText(id)) == 7 by {
      Framed("policy applicability \"", Render(id), "\" requires the original application receipt time");
    }
    assert KindIn(UnsupportedText(id, rule)) == 8 by {
      var q := "\"" + (" uses unsupported transition rule \"" + rule + "\"");
      Framed("policy applicability \"", Render(id), q);
      assert q[|q| - 1] == '"';
    }
  }

  lemma {:induction false} RuleKind(k: string, n: nat, t: Instant)
    ensures KindIn(OverlapText(k, n, t)) == 9
  {
    var rest := k + "\" has" + (" " + Render(n)) + OVERLAPPING;
    assert OverlapText(k, n, t) == "rule \"" + rest + (" " + Stamp(t));
    Framed("rule \"", rest, " " + Stamp(t));
  }

  lemma {:induction false} KindIsTold(r: Reason)
    ensures KindIn(Describe(r)) == KindOf(r)
  {
    match r
    case Cycle(c) => AncestryKinds(c);
    case UnknownCode(c) => AncestryKinds(c);
    case NotCovered(c) => JurisdictionKinds(c);
    case NoSource(c) => JurisdictionKinds(c);
    case NoRevision(s) => SourceKinds(s.name);
    case InvalidObjective(s) => SourceKinds(s.name);
    case Stale(s, d) => StaleKind(s.name, d);
    case NeedsReceipt(row) => RowKinds(row.id, "");
    case Unsupported(row) => RowKinds(row.id, Rule(row));
    case Overlap(k, n, t) => RuleKind(k, n, t);
  }

  // ---------------------------------------------------------------------------------------------
  // What it tells about it

  lemma {:induction false} SameBetween(p: string, x: string, y: string, q: string)
    requires p + x + q == p + y + q
    ensures x == y
  {
    assert |x| == |y|;
    assert (p + x + q)[|p|..|p| + |x|] == x && (p + y + q)[|p|..|p| + |y|] == y;
  }

  /** The last word decides where the text before it ends. */
  lemma {:induction false} SameLastWord(x: string, a: string, y: string, b: string)
    requires x + (" " + a) == y + (" " + b) && ' ' !in a && ' ' !in b
    ensures x == y && a == b
  {
    var s := x + (" " + a);
    assert s[|x|] == ' ' && s[|y|] == ' ';
    assert forall i :: |x| < i < |s| ==> s[i] in a;
    assert forall i :: |y| < i < |s| ==> s[i] in b;
    assert s[..|x|] == x && s[..|y|] == y;
    assert s[|x| + 1..] == a && s[|y| + 1..] == b;
  }

  /** The first quote decides where a number before it ends. */
  lemma {:induction false} SameFirstWord(a: string, x: string, b: string, y: string)
    requires a + ("\"" + x) == b + ("\"" + y) && '"' !in a && '"' !in b
    ensures a == b && x == y
  {
    var s := a + ("\"" + x);
    assert s[|a|] == '"' && s[|b|] == '"';
    assert forall i :: 0 <= i < |a| ==> s[i] in a;
    assert forall i :: 0 <= i < |b| ==> s[i] in b;
    assert s[..|a|] == a && s[..|b|] == b;
    assert s[|a| + 1..] == x && s[|b| + 1..] == y;
  }

  lemma {:induction false} StampTells(d: Instant, e: Instant)
    ensures ' ' !in Stamp(d) && (Stamp(d) == Stamp(e) ==> d == e)
  {
    ReadWhatWasStamped(d);
    ReadWhatWasStamped(e);
  }

  lemma {:induction false} NumberTells(m: nat, n: nat)
    ensures ' ' !in Render(m) && '"' !in Render(m) && (Render(m) == Render(n) ==> m == n)
  {
    ValueOfRender(m);
    ValueOfRender(n);
  }

  lemma {:induction false} StaleTells(name: string, d: Instant, name': string, d': Instant)
    requires StaleText(name, d) == StaleText(name', d')
    ensures name == name' && d == d'
  {
    var p, q := "policy source \"", "\" exceeded its freshness objective at";
    StampTells(d, d');
    StampTells(d', d);
    SameLastWord(p + name + q, Stamp(d), p + name' + q, Stamp(d'));
    SameBetween(p, name, name', q);
  }

  lemma {:induction false} OverlapTells(k: string, n: nat, t: Instant, k': string, n': nat, t': Instant)
    requires OverlapText(k, n, t) == OverlapText(k', n', t')
    ensures k == k' && n == n' && t == t'
  {
    var p, q := "rule \"", "\" has";
    var x, y := p + k + q + (" " + Render(n)), p + k' + q + (" " + Render(n'));
    StampTells(t, t');
    StampTells(t', t);
    SameLastWord(x + OVERLAPPING, Stamp(t), y + OVERLAPPING, Stamp(t'));
    SameFront(x, y, OVERLAPPING);
    NumberTells(n, n');
    NumberTells(n', n);
    SameLastWord(p + k + q, Render(n), p + k' + q, Render(n'));
    SameBetween(p, k, k', q);
  }

  lemma {:induction false} SameFront(x: string, y: string, q: string)
    requires x + q == y + q
    ensures x == y
  {
    assert [] + x + q == x + q && [] + y + q == y + q;
    SameBetween([], x, y, q);
  }

  lemma {:induction false} RowsTell(id: nat, rule: string, id': nat, rule': string)
    ensures ReceiptText(id) == ReceiptText(id') ==> id == id'
    ensures UnsupportedText(id, rule) == UnsupportedText(id', rule') ==> id == id' && rule == rule'
  {
    var p := "policy applicability \"";
    if ReceiptText(id) == ReceiptText(id') {
      NumberTells(id, id');
      SameBetween(p, Render(id), Render(id'), "\" requires the original application receipt time");
    }
    if UnsupportedText(id, rule) == UnsupportedText(id', rule') {
      SameRule(p, " uses unsupported transition rule \"", id, rule, id', rule');
    }
  }

  lemma {:induction false} SameRule(p: string, u: string, id: nat, rule: string, id': nat, rule': string)
    requires p + Render(id) + ("\"" + (u + rule + "\"")) == p + Render(id') + ("\"" + (u + rule' + "\""))
    ensures id == id' && rule == rule'
  {
    NumberTells(id, id');
    NumberTells(id', id);
    var x, y := Render(id) + ("\"" + (u + rule + "\"")), Render(id') + ("\"" + (u + rule' + "\""));
    assert p + x + [] == p + Render(id) + ("\"" + (u + rule + "\""));
    assert p + y + [] == p + Render(id') + ("\"" + (u + rule' + "\""));
    SameBetween(p, x, y, []);
    SameFirstWord(Render(id), u + rule + "\"", Render(id'), u + rule' + "\"");
    SameBetween(u, rule, rule', "\"");
  }

  lemma {:induction false} CodesTell(c: Code, c': Code)
    ensures CycleText(c) == CycleText(c') || UnknownText(c) == UnknownText(c') ==> c == c'
    ensures UncoveredText(c) == UncoveredText(c') || SourcelessText(c) == SourcelessText(c') ==> c == c'
  {
    if CycleText(c) == CycleText(c') {
      SameBetween(ANCESTRY + "contains a cycle at \"", c, c', "\"");
    } else if UnknownText(c) == UnknownText(c') {
      SameBetween(ANCESTRY + "references unknown code \"", c, c', "\"");
    } else if UncoveredText(c) == UncoveredText(c') {
      SameBetween("jurisdiction \"", c, c', "\" does not have reviewed COVERED status");
    } else if SourcelessText(c) == SourcelessText(c') {
      SameBetween("jurisdiction \"", c, c', "\" has no registered policy source");
    }
  }

  lemma {:induction false} NamesTell(name: string, name': string)
    ensures UnrecordedText(name) == UnrecordedText(name') ==> name == name'
    ensures ObjectiveText(name) == ObjectiveText(name') ==> name == name'
  {
    if UnrecordedText(name) == UnrecordedText(name') {
      SameBetween("policy source \"", name, name', "\" has no recorded revision");
    } else if ObjectiveText(name) == ObjectiveText(name') {
      SameBetween("policy source \"", name, name', "\" has an invalid freshness objective");
    }
  }

  /** Two reasons have the same words if and only if they are of one kind and about the same thing. */
  lemma {:induction false} WordsAreExact(a: Reason, b: Reason)
    ensures Describe(a) == Describe(b) <==> ToldAlike(a, b)
  {
    if Describe(a) == Describe(b) {
      KindIsTold(a);
      KindIsTold(b);
      if KindOf(a) <= 3 { CodesTell(a.code, b.code); }
      else if KindOf(a) <= 5 { NamesTell(a.source.name, b.source.name); }
      else if a.Stale? { StaleTells(a.source.name, a.deadline, b.source.name, b.deadline); }
      else if a.Overlap? { OverlapTells(a.ruleId, a.count, a.asOf, b.ruleId, b.count, b.asOf); }
      else { RowsTell(a.row.id, Rule(a.row), b.row.id, Rule(b.row)); }
    }
  }
}
