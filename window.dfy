/** The optional time window of the address count: its meaning as a row
    filter, the SQL text the handler writes for it, and a reader for that
    text that recovers the bounds. */
module Window {
  import opened Results
  import opened Decimal

  /** A window bound as the handler renders it: `timestamp > since` or
      `timestamp < until`; both are strict. */
  datatype Bound = After(since: int) | Before(until: int)

  predicate Holds(b: Bound, t: int) {
    match b
    case After(since) => t > since
    case Before(until) => t < until
  }

  /** The meaning of predicates joined by `AND`: each one holds. */
  predicate HoldsAll(bs: seq<Bound>, t: int) {
    forall i :: 0 <= i < |bs| ==> Holds(bs[i], t)
  }

  /** The open window `(start, end)`; a missing side is unbounded. */
  predicate InWindow(t: int, start: Option<int>, end: Option<int>)
    ensures InWindow(t, start, end) && start.Some? && end.Some? ==> start.value + 2 <= end.value
  {
    && (start.None? || start.value < t)
    && (end.None? || t < end.value)
  }

  /** The bounds the handler collects: one per supplied bound, the start
      bound first. Joined by `AND`, they mean exactly the window. */
  function WindowBounds(start: Option<int>, end: Option<int>): (bs: seq<Bound>)
    ensures |bs| == (if start.Some? then 1 else 0) + (if end.Some? then 1 else 0)
    ensures start.Some? ==> bs[0] == After(start.value)
    ensures end.Some? ==> bs[|bs| - 1] == Before(end.value)
    ensures forall t :: HoldsAll(bs, t) <==> InWindow(t, start, end)
  {
    match (start, end)
    case (None, None) => []
    case (Some(since), None) => [After(since)]
    case (None, Some(until)) => [Before(until)]
    case (Some(since), Some(until)) => [After(since), Before(until)]
  }

  /** One entry of the handler's predicate list: `"timestamp > {start} "`
      or `"timestamp < {end} "`, trailing space included. */
  function RenderBound(b: Bound): string {
    match b
    case After(since) => "timestamp > " + IntText(since) + " "
    case Before(until) => "timestamp < " + IntText(until) + " "
  }

  function RenderAll(bs: seq<Bound>): (parts: seq<string>)
    ensures |parts| == |bs|
    ensures forall i :: 0 <= i < |bs| ==> parts[i] == RenderBound(bs[i])
  {
    seq(|bs|, i requires 0 <= i < |bs| => RenderBound(bs[i]))
  }

  /** The summed length of the parts. */
  function TotalLength(parts: seq<string>): nat {
    if parts == [] then 0 else |parts[0]| + TotalLength(parts[1..])
  }

  /** `parts.join(sep)`: the parts in order with one `sep` between
      neighbours. */
  function Join(parts: seq<string>, sep: string): string {
    if parts == [] then ""
    else if |parts| == 1 then parts[0]
    else parts[0] + sep + Join(parts[1..], sep)
  }

  /** The joined text starts with the first part, and its length is the
      parts' total plus one separator per gap. */
  lemma {:induction false} JoinShape(parts: seq<string>, sep: string)
    ensures parts != [] ==> |parts[0]| <= |Join(parts, sep)| && Join(parts, sep)[..|parts[0]|] == parts[0]
    ensures |Join(parts, sep)| == TotalLength(parts) + (if parts == [] then 0 else (|parts| - 1) * |sep|)
  {
    if |parts| >= 2 {
      JoinShape(parts[1..], sep);
      assert (|parts| - 1) * |sep| == |sep| + (|parts| - 2) * |sep|;
    }
  }

  const Where := "WHERE "
  const And := " AND "
  const Column := "timestamp "

  /** Reads one rendered bound at the start of `s`: the bound and the
      number of characters read. */
  function ParseBound(s: string): (r: Option<(Bound, nat)>)
    ensures r.Some? ==> 0 < r.value.1 <= |s|
  {
    if |s| < 12 || s[..10] != Column || (s[10] != '>' && s[10] != '<') || s[11] != ' ' then None
    else
      match ParseInt(s[12..])
      case None => None
      case Some((n, k)) =>
        if 12 + k < |s| && s[12 + k] == ' ' then
          Some((if s[10] == '>' then After(n) else Before(n), 13 + k))
        else None
  }

  /** Reads bounds separated by `" AND "` that make up all of `s`. */
  function ParseConjunction(s: string): (r: Option<seq<Bound>>)
    ensures r.Some? ==> |r.value| > 0
    decreases |s|
  {
    match ParseBound(s)
    case None => None
    case Some((b, k)) =>
      if k == |s| then Some([b])
      else if k + |And| <= |s| && s[k..k + |And|] == And then
        match ParseConjunction(s[k + |And|..])
        case None => None
        case Some(bs) => Some([b] + bs)
      else None
  }

  /** Reads the text the handler appends to a base query: nothing, or
      `"WHERE "` followed by a conjunction of bounds. */
  function ParseWhere(suffix: string): Option<seq<Bound>> {
    if suffix == [] then Some([])
    else if |suffix| >= 6 && suffix[..6] == Where then ParseConjunction(suffix[6..])
    else None
  }

  function Symbol(b: Bound): char {
    if b.After? then '>' else '<'
  }

  function Limit(b: Bound): int {
    if b.After? then b.since else b.until
  }

  lemma RenderBoundShape(b: Bound)
    ensures RenderBound(b) == Column + [Symbol(b), ' '] + IntText(Limit(b)) + " "
  {
  }

  lemma ParseBoundShape(s: string, b: Bound, k: nat)
    requires 12 + k < |s|
    requires s[..10] == Column && s[10] == Symbol(b) && s[11] == ' ' && s[12 + k] == ' '
    requires ParseInt(s[12..]) == Some((Limit(b), k))
    ensures ParseBound(s) == Some((b, 13 + k))
  {
  }

  lemma ParseBoundText(b: Bound, rest: string)
    ensures ParseBound(RenderBound(b) + rest) == Some((b, |RenderBound(b)|))
  {
    var text := IntText(Limit(b));
    var tail := text + (" " + rest);
    var s := RenderBound(b) + rest;
    RenderBoundShape(b);
    assert s == Column + [Symbol(b), ' '] + tail;
    assert s[..10] == Column;
    assert s[12..] == tail;
    ParseIntText(Limit(b), " " + rest);
    assert s[12 + |text|] == ' ';
    ParseBoundShape(s, b, |text|);
  }

  lemma ParseConjunctionLast(s: string, b: Bound)
    requires ParseBound(s) == Some((b, |s|))
    ensures ParseConjunction(s) == Some([b])
  {
  }

  lemma ParseConjunctionStep(s: string, b: Bound, k: nat, rest: string)
    requires ParseBound(s) == Some((b, k))
    requires k + |And| <= |s| && s[k..k + |And|] == And && s[k + |And|..] == rest
    ensures ParseConjunction(s)
         == match ParseConjunction(rest) case None => None case Some(bs) => Some([b] + bs)
  {
  }

  lemma SlicesOfConcat(a: string, b: string, c: string)
    ensures (a + (b + c))[|a|..|a| + |b|] == b
    ensures (a + (b + c))[|a| + |b|..] == c
  {
  }

  /** A bound read in front of `" AND "` and a conjunction extends it by one. */
  lemma ParseConjunctionCons(s: string, k: nat, b: Bound, tail: string, bs: seq<Bound>)
    requires ParseBound(s) == Some((b, k))
    requires k + |And| <= |s| && s[k..k + |And|] == And && s[k + |And|..] == tail
    requires ParseConjunction(tail) == Some(bs)
    ensures ParseConjunction(s) == Some([b] + bs)
  {
    ParseConjunctionStep(s, b, k, tail);
  }

  lemma JoinRenderCons(bs: seq<Bound>)
    requires |bs| >= 2
    ensures Join(RenderAll(bs), And) == RenderBound(bs[0]) + (And + Join(RenderAll(bs[1..]), And))
  {
    var parts := RenderAll(bs);
    assert RenderAll(bs[1..]) == parts[1..];
  }

  /** One rendered bound alone parses back as a one-element conjunction. */
  lemma ParseConjunctionOne(b: Bound)
    ensures ParseConjunction(RenderBound(b)) == Some([b])
  {
    var first := RenderBound(b);
    ParseBoundText(b, []);
    assert first + [] == first;
    ParseConjunctionLast(first, b);
  }

  /** A rendered bound, `" AND "` and a parsable conjunction parse back as
      that bound in front of the conjunction. */
  lemma ParseConjunctionRenderedCons(b: Bound, tail: string, rest: seq<Bound>)
    requires ParseConjunction(tail) == Some(rest)
    ensures ParseConjunction(RenderBound(b) + (And + tail)) == Some([b] + rest)
  {
    var first := RenderBound(b);
    ParseBoundText(b, And + tail);
    SlicesOfConcat(first, And, tail);
    ParseConjunctionCons(first + (And + tail), |first|, b, tail, rest);
  }

  lemma {:induction false} ParseConjunctionText(bs: seq<Bound>)
    requires bs != []
    ensures ParseConjunction(Join(RenderAll(bs), And)) == Some(bs)
  {
    if |bs| == 1 {
      assert Join(RenderAll(bs), And) == RenderBound(bs[0]);
      ParseConjunctionOne(bs[0]);
      assert bs == [bs[0]];
    } else {
      JoinRenderCons(bs);
      ParseConjunctionText(bs[1..]);
      ParseConjunctionRenderedCons(bs[0], Join(RenderAll(bs[1..]), And), bs[1..]);
      assert [bs[0]] + bs[1..] == bs;
    }
  }

  /** The text the handler appends to both base queries for its predicate
      list: nothing when the list is empty. */
  function WhereClause(parts: seq<string>): string {
    if parts == [] then "" else Where + Join(parts, And)
  }

  /** The suffix is empty exactly when there are no predicates; otherwise
      it opens with `"WHERE "`, followed by the first predicate. */
  lemma WhereClauseShape(parts: seq<string>)
    ensures WhereClause(parts) == [] <==> parts == []
    ensures parts != [] ==> |Where| + |parts[0]| <= |WhereClause(parts)|
    ensures parts != [] ==> WhereClause(parts)[..|Where|] == Where
    ensures parts != [] ==> WhereClause(parts)[|Where|..|Where| + |parts[0]|] == parts[0]
  {
  }

  /** The suffix the handler appends parses back to the bounds it was
      written from, so it selects exactly the rows those bounds admit. */
  lemma WhereText(bs: seq<Bound>)
    ensures ParseWhere(WhereClause(RenderAll(bs))) == Some(bs)
  {
    if bs != [] {
      ParseConjunctionText(bs);
      var s := Where + Join(RenderAll(bs), And);
      assert s[6..] == Join(RenderAll(bs), And);
    }
  }
}
