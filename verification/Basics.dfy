/** Small shared vocabulary. */
module Basics {

  datatype Option<+T> = None | Some(value: T)

  /** Milliseconds on one shared time axis. */
  type Instant = int

  function Min(a: int, b: int): int { if a < b then a else b }

  function Max(a: int, b: int): int { if a < b then b else a }

  /** The characters that `trim` removes. */
  predicate IsSpace(c: char) {
    c == ' ' || '\t' <= c <= '\r' || c == '\U{00A0}' || c == '\U{1680}' || '\U{2000}' <= c <= '\U{200A}'
        || c == '\U{2028}'
    || c == '\U{2029}' || c == '\U{202F}' || c == '\U{205F}' || c == '\U{3000}' || c == '\U{FEFF}'
  }

  predicate Blank(text: string) { forall i :: 0 <= i < |text| ==> IsSpace(text[i]) }

  /** There is always another number. */
  lemma {:induction false} FreshId(ids: set<nat>) returns (d: nat)
    ensures d !in ids
  {
    var rest := ids;
    d := 0;
    while d in rest
      invariant rest <= ids && forall i :: i in ids && i !in rest ==> i < d
      decreases |rest|
    {
      rest, d := rest - {d}, d + 1;
    }
  }
}
