/**
 * Substitution over all matches of a pattern, as Python's `re.subn` and
 * `str.replace` perform it: the string is scanned from the left, the pattern
 * is tried at each position, a match is replaced and the scan resumes after
 * it, and a position where the pattern does not match keeps its character.
 *
 * The pattern is given as a matcher, a function that tries it at the start of
 * a string; `Patterns.Match` supplies the ones the program uses.
 */
module Rewrite {
  import opened Outcomes
  import opened Patterns

  type Matcher = string -> Option<Piece>

  /** Every match is a hit that covers a non-empty prefix of the string it was tried on. */
  ghost predicate Consumes(m: Matcher) {
    forall t :: m(t).Some? ==> m(t).value.Hit? && Text(m(t).value) <= t && Text(m(t).value) != []
  }

  /** The matcher of a pattern of the program. */
  function MatcherOf(p: Pattern): (m: Matcher)
    requires Valid(p)
    ensures Consumes(m)
    ensures forall t :: m(t) == Match(p, t)
  {
    (t: string) => Match(p, t)
  }

  /** The text the pieces were cut from. */
  function Join(ps: seq<Piece>): string {
    if ps == [] then [] else Text(ps[0]) + Join(ps[1..])
  }

  /** The text with the replaced part of every hit swapped for `mid`. */
  function Splice(ps: seq<Piece>, mid: string): string {
    if ps == [] then []
    else
      var first := match ps[0]
        case Kept(c) => [c]
        case Hit(head, _, tail) => head + mid + tail;
      first + Splice(ps[1..], mid)
  }

  /** A kept character is where the pattern does not match; a hit is the match found there. */
  predicate Agrees(m: Matcher, piece: Piece, rest: string) {
    match piece
    case Kept(_) => m(rest).None?
    case Hit(_, _, _) => m(rest) == Some(piece)
  }

  /**
   * `ps` is the left-to-right scan of s: the pieces rejoin to s, and each
   * piece agrees with the pattern tried on the text from that piece on.
   */
  predicate IsScan(m: Matcher, ps: seq<Piece>, s: string) {
    && Join(ps) == s
    && forall k {:trigger ps[k]} :: 0 <= k < |ps| ==> Agrees(m, ps[k], Join(ps[k..]))
  }

  /** What the scan takes at the start of a non-empty s. */
  function First(m: Matcher, s: string): (x: Piece)
    requires Consumes(m) && s != []
    ensures |Text(x)| <= |s| && Text(x) == s[..|Text(x)|] && Text(x) != []
    ensures Agrees(m, x, s)
  {
    match m(s)
    case None => Kept(s[0])
    case Some(h) => h
  }

  /** The only piece that agrees with the pattern at the start of s and is cut from s. */
  lemma FirstUnique(m: Matcher, x: Piece, s: string)
    requires Consumes(m) && s != []
    requires |Text(x)| <= |s| && Text(x) == s[..|Text(x)|]
    requires Agrees(m, x, s)
    ensures x == First(m, s)
  {
    if x.Kept? {
      assert Text(x)[0] == s[0];
    }
  }

  lemma ScanCons(m: Matcher, x: Piece, rest: seq<Piece>, s: string)
    requires |Text(x)| <= |s| && Text(x) == s[..|Text(x)|]
    requires Agrees(m, x, s)
    requires IsScan(m, rest, s[|Text(x)|..])
    ensures IsScan(m, [x] + rest, s)
  {
    var ps := [x] + rest;
    assert ps[1..] == rest;
    assert Join(ps) == s;
    forall k | 1 <= k < |ps|
      ensures Agrees(m, ps[k], Join(ps[k..]))
    {
      assert ps[k] == rest[k - 1];
      assert ps[k..] == rest[k - 1..];
    }
  }

  lemma ScanTail(m: Matcher, ps: seq<Piece>, s: string)
    requires ps != [] && IsScan(m, ps, s)
    ensures |Text(ps[0])| <= |s| && s[..|Text(ps[0])|] == Text(ps[0])
    ensures Agrees(m, ps[0], s)
    ensures IsScan(m, ps[1..], s[|Text(ps[0])|..])
  {
    assert ps[0..] == ps;
    var rest := ps[1..];
    forall k | 0 <= k < |rest|
      ensures Agrees(m, rest[k], Join(rest[k..]))
    {
      assert rest[k] == ps[k + 1];
      assert rest[k..] == ps[k + 1..];
    }
  }

  /** The scan of s, computed the way the regex engine walks the string. */
  function Scan(m: Matcher, s: string): (ps: seq<Piece>)
    requires Consumes(m)
    decreases |s|
  {
    if s == [] then []
    else
      var x := First(m, s);
      [x] + Scan(m, s[|Text(x)|..])
  }

  /** The computed scan is a scan. */
  lemma {:induction false} ScanIsScan(m: Matcher, s: string)
    requires Consumes(m)
    ensures IsScan(m, Scan(m, s), s)
    decreases |s|
  {
    if s != [] {
      var x := First(m, s);
      ScanIsScan(m, s[|Text(x)|..]);
      ScanCons(m, x, Scan(m, s[|Text(x)|..]), s);
    }
  }

  /** A string has exactly one scan. */
  lemma {:induction false} ScanUnique(m: Matcher, ps: seq<Piece>, s: string)
    requires Consumes(m)
    requires IsScan(m, ps, s)
    ensures ps == Scan(m, s)
    decreases |ps|
  {
    if ps != [] {
      ScanTail(m, ps, s);
      FirstUnique(m, ps[0], s);
      ScanUnique(m, ps[1..], s[|Text(ps[0])|..]);
      assert ps == [ps[0]] + ps[1..];
    }
  }

  /** `pattern.subn(replacement, s)[0]`, the replacement being head + mid + tail. */
  function Sub(m: Matcher, mid: string, s: string): string
    requires Consumes(m)
  {
    Splice(Scan(m, s), mid)
  }

  /** Any decomposition that is a scan gives the substitution. */
  lemma SubOfScan(m: Matcher, mid: string, ps: seq<Piece>, s: string)
    requires Consumes(m)
    requires IsScan(m, ps, s)
    ensures Sub(m, mid, s) == Splice(ps, mid)
  {
    ScanUnique(m, ps, s);
  }

  /** One step of the scan: a kept character where the pattern does not match. */
  lemma SubKeptStep(m: Matcher, mid: string, s: string)
    requires Consumes(m)
    requires s != [] && m(s).None?
    ensures Sub(m, mid, s) == [s[0]] + Sub(m, mid, s[1..])
  {
  }

  /** Where the pattern matches at the start, that match is the first one replaced. */
  lemma SubHitStep(m: Matcher, mid: string, s: string)
    requires Consumes(m)
    requires m(s).Some?
    ensures var h := m(s).value;
      Sub(m, mid, s) == h.head + mid + h.tail + Sub(m, mid, s[|Text(h)|..])
  {
  }

  /** A prefix where the pattern matches at no position is kept as it is. */
  lemma {:induction false} SubKeptPrefix(m: Matcher, mid: string, s: string, n: nat)
    requires Consumes(m)
    requires n <= |s|
    requires forall i :: 0 <= i < n ==> m(s[i..]).None?
    ensures Sub(m, mid, s) == s[..n] + Sub(m, mid, s[n..])
  {
    if n == 0 {
      assert s[0..] == s;
    } else {
      SubKeptPrefix(m, mid, s, n - 1);
      assert s[n - 1..][0] == s[n - 1] && s[n - 1..][1..] == s[n..];
      SubKeptStep(m, mid, s[n - 1..]);
      KeptJoin(s, n, Sub(m, mid, s[n..]));
    }
  }

  lemma KeptJoin(s: string, n: nat, b: string)
    requires 0 < n <= |s|
    ensures s[..n - 1] + ([s[n - 1]] + b) == s[..n] + b
  {
    assert s[..n] == s[..n - 1] + [s[n - 1]];
  }

  /** Where the pattern matches nowhere, the substitution changes nothing. */
  lemma SubNoMatch(m: Matcher, mid: string, s: string)
    requires Consumes(m)
    requires forall i :: 0 <= i < |s| ==> m(s[i..]).None?
    ensures Sub(m, mid, s) == s
  {
    SubKeptPrefix(m, mid, s, |s|);
    assert s[..|s|] == s;
  }

  /** A suffix from e on where the pattern matches at no position is kept as it is. */
  lemma SubNoMatchFrom(m: Matcher, mid: string, s: string, e: nat)
    requires Consumes(m)
    requires e <= |s|
    requires forall i :: e <= i < |s| ==> m(s[i..]).None?
    ensures Sub(m, mid, s[e..]) == s[e..]
  {
    forall i | 0 <= i < |s| - e
      ensures m(s[e..][i..]).None?
    {
      assert s[e..][i..] == s[e + i..];
    }
    SubNoMatch(m, mid, s[e..]);
  }

  lemma SubHitAt(m: Matcher, mid: string, s: string, h: Piece)
    requires Consumes(m)
    requires m(s) == Some(h)
    ensures Sub(m, mid, s) == h.head + mid + h.tail + Sub(m, mid, s[|Text(h)|..])
  {
    SubHitStep(m, mid, s);
  }

  /** A hit at n is replaced, and the scan resumes right after it. */
  lemma SubHitFrom(m: Matcher, mid: string, s: string, n: nat, h: Piece)
    requires Consumes(m)
    requires n <= |s|
    requires m(s[n..]) == Some(h)
    ensures Sub(m, mid, s[n..]) == h.head + mid + h.tail + Sub(m, mid, s[n + |Text(h)|..])
  {
    SubHitAt(m, mid, s[n..], h);
    assert s[n..][|Text(h)|..] == s[n + |Text(h)|..];
  }

  /**
   * The leftmost match, h at n: the text before it is kept, h is replaced,
   * and the rest is substituted in turn.
   */
  lemma SubFirstHit(m: Matcher, mid: string, s: string, n: nat, h: Piece)
    requires Consumes(m)
    requires n <= |s|
    requires forall i :: 0 <= i < n ==> m(s[i..]).None?
    requires m(s[n..]) == Some(h)
    ensures Sub(m, mid, s) == s[..n] + (h.head + mid + h.tail + Sub(m, mid, s[n + |Text(h)|..]))
  {
    SubKeptPrefix(m, mid, s, n);
    SubHitFrom(m, mid, s, n, h);
  }

  /** A hit at n after which the pattern matches nowhere: only that hit is replaced. */
  lemma SubHitThenNone(m: Matcher, mid: string, s: string, n: nat, h: Piece)
    requires Consumes(m)
    requires n <= |s|
    requires m(s[n..]) == Some(h)
    requires forall i :: n + |Text(h)| <= i < |s| ==> m(s[i..]).None?
    ensures Sub(m, mid, s[n..]) == h.head + mid + h.tail + s[n + |Text(h)|..]
  {
    SubHitFrom(m, mid, s, n, h);
    SubNoMatchFrom(m, mid, s, n + |Text(h)|);
  }

  /**
   * A string in which the pattern matches exactly once, with the hit h at
   * position n: the one hit is replaced and everything around it is kept.
   */
  lemma SubOneHit(m: Matcher, mid: string, s: string, n: nat, h: Piece)
    requires Consumes(m)
    requires n <= |s|
    requires forall i :: 0 <= i < n ==> m(s[i..]).None?
    requires m(s[n..]) == Some(h)
    requires forall i :: n + |Text(h)| <= i < |s| ==> m(s[i..]).None?
    ensures Sub(m, mid, s) == s[..n] + (h.head + mid + h.tail + s[n + |Text(h)|..])
  {
    SubKeptPrefix(m, mid, s, n);
    SubHitThenNone(m, mid, s, n, h);
  }

  /** A string the pattern matches as a whole: the one hit is replaced. */
  lemma SubWhole(m: Matcher, mid: string, s: string, h: Piece)
    requires Consumes(m)
    requires m(s) == Some(h) && |Text(h)| == |s|
    ensures Sub(m, mid, s) == h.head + mid + h.tail
  {
    assert s[0..] == s;
    SubOneHit(m, mid, s, 0, h);
  }

  /** The number of substitutions made, the second result of `subn`. */
  function Hits(ps: seq<Piece>): (n: nat)
    ensures n <= |ps|
  {
    if ps == [] then 0 else (if ps[0].Hit? then 1 else 0) + Hits(ps[1..])
  }

  /** With no hit, splicing gives back the text. */
  lemma {:induction false} SpliceNoHits(ps: seq<Piece>, mid: string)
    requires Hits(ps) == 0
    ensures Splice(ps, mid) == Join(ps)
  {
    if ps != [] {
      SpliceNoHits(ps[1..], mid);
    }
  }

  /** A replacement no longer than every replaced part never lengthens the string. */
  lemma {:induction false} SpliceShrinks(ps: seq<Piece>, mid: string)
    requires forall k :: 0 <= k < |ps| && ps[k].Hit? ==> |mid| <= |ps[k].body|
    ensures |Splice(ps, mid)| <= |Join(ps)|
  {
    if ps != [] {
      assert forall k :: 0 <= k < |ps| - 1 ==> ps[1..][k] == ps[k + 1];
      SpliceShrinks(ps[1..], mid);
    }
  }
}
