/**
 * Tokenisation by exhaustive search: every way of cutting the input into
 * space-free pieces whose kinds chain according to the grammar, counted up to
 * two. The memo table of the source only caches this function; it is not
 * modelled.
 */
module Resolver {
  import opened Wrappers
  import opened Text
  import opened Grammar
  import opened SymbolTable

  /** The value a search cell settles on: one reading (and its next kind), none, or several. */
  datatype Outcome = Unique(kind: TokenType) | Unresolved | Ambiguous

  /** A piece `s[start..end]` read as `kind`. */
  datatype Piece = Piece(start: nat, end: nat, kind: TokenType)

  /** A token that could end at `end`: the text from the first non-space up to `end`, read as `kind`. */
  datatype Candidate = Candidate(end: nat, kind: TokenType)

  // ----------------------------------------------------------- the reference

  /**
   * `pieces` is a reading of `s[j..]` after a token of kind `pred`: each piece
   * is preceded only by spaces, holds no space, has a kind its text allows and
   * the grammar permits after the previous kind, and the last one is followed
   * by the end of the input, which must be permitted too.
   */
  predicate Reading(reg: Registry, s: string, j: nat, pred: TokenType, pieces: seq<Piece>)
    decreases |pieces|
  {
    if |pieces| == 0 then j == |s| && Precedes(pred, End)
    else Fits(reg, s, j, pred, pieces[0]) && Reading(reg, s, pieces[0].end, pieces[0].kind, pieces[1..])
  }

  /**
   * `p` may come next at `j` after a token of kind `pred`: only spaces before
   * it, no space inside it, a kind its text allows and the grammar permits.
   */
  predicate Fits(reg: Registry, s: string, j: nat, pred: TokenType, p: Piece) {
    && j <= p.start < p.end <= |s|
    && AllSpaces(s[j..p.start])
    && NoSpaces(s[p.start..p.end])
    && TypeFits(reg, s[p.start..p.end], p.kind)
    && Precedes(pred, p.kind)
  }

  ghost predicate HasReading(reg: Registry, s: string, j: nat, pred: TokenType) {
    exists pieces :: Reading(reg, s, j, pred, pieces)
  }

  ghost predicate HasTwoReadings(reg: Registry, s: string, j: nat, pred: TokenType) {
    exists p1, p2 :: p1 != p2 && Reading(reg, s, j, pred, p1) && Reading(reg, s, j, pred, p2)
  }

  /** The kind a search cell records for a reading: that of its first piece, or `pred` at the end of the input. */
  function FirstKind(pred: TokenType, pieces: seq<Piece>): TokenType {
    if |pieces| == 0 then pred else pieces[0].kind
  }

  // ------------------------------------------------------------- the search

  /** The first position at or after `j` that is not a space, or `|s|`. */
  function FirstNonSpace(s: string, j: nat): (a: nat)
    requires j <= |s|
    ensures j <= a <= |s|
    ensures AllSpaces(s[j..a])
    ensures a < |s| ==> !IsSpace(s[a])
    decreases |s| - j
  {
    if j == |s| || !IsSpace(s[j]) then j
    else
      var a := FirstNonSpace(s, j + 1);
      assert forall k :: 0 <= k < a - j ==> s[j..a][k] == s[j + k];
      a
  }

  function Group(e: nat, kinds: seq<TokenType>): (r: seq<Candidate>)
    ensures |r| == |kinds|
    ensures forall i :: 0 <= i < |r| ==> r[i] == Candidate(e, kinds[i])
  {
    seq(|kinds|, i requires 0 <= i < |kinds| => Candidate(e, kinds[i]))
  }

  /**
   * The inner loops of `resolveRec` for a token starting at `a`: the token
   * grows one character at a time until a space, and each of its possible
   * kinds is a candidate, in that order.
   */
  function CandidatesFrom(reg: Registry, s: string, a: nat, e: nat): (r: seq<Candidate>)
    requires a < e <= |s| + 1
    requires NoSpaces(s[a..e - 1])
    ensures forall c :: c in r <==>
      e <= c.end <= |s| && NoSpaces(s[a..c.end]) && TypeFits(reg, s[a..c.end], c.kind)
    ensures NoDuplicates(r)
    decreases |s| + 1 - e
  {
    if e > |s| then []
    else if IsSpace(s[e - 1]) then
      assert forall end :: e <= end <= |s| ==> s[a..end][e - 1 - a] == s[e - 1];
      []
    else
      assert NoSpaces(s[a..e]) by {
        forall k | 0 <= k < e - a ensures !IsSpace(s[a..e][k]) {
          if k < e - 1 - a {
            assert s[a..e][k] == s[a..e - 1][k];
          }
        }
      }
      var head := Group(e, PossibleTypes(reg, s[a..e]));
      var tail := CandidatesFrom(reg, s, a, e + 1);
      assert forall c :: c in head <==> c.end == e && TypeFits(reg, s[a..e], c.kind) by {
        forall c | c in head ensures c.end == e && c.kind in PossibleTypes(reg, s[a..e]) {
          var i :| 0 <= i < |head| && head[i] == c;
        }
        forall c: Candidate | c.end == e && c.kind in PossibleTypes(reg, s[a..e]) ensures c in head {
          var i :| 0 <= i < |PossibleTypes(reg, s[a..e])| && PossibleTypes(reg, s[a..e])[i] == c.kind;
          assert head[i] == c;
        }
      }
      assert forall i, j :: 0 <= i < |head| && 0 <= j < |tail| ==> head[i] != tail[j] by {
        forall i, j | 0 <= i < |head| && 0 <= j < |tail| ensures head[i] != tail[j] {
          assert tail[j] in tail;
        }
      }
      head + tail
  }

  /** The candidates of a search cell at position `j`. */
  function Candidates(reg: Registry, s: string, j: nat): (r: seq<Candidate>)
    requires j <= |s|
    ensures NoDuplicates(r)
    ensures forall c :: c in r ==> j < c.end <= |s|
  {
    var a := FirstNonSpace(s, j);
    assert NoSpaces(s[a..a]);
    CandidatesFrom(reg, s, a, a + 1)
  }

  /** How one candidate's outcome updates a cell: the update rule of `resolveRec`. */
  function Combine(acc: Outcome, kind: TokenType, rr: Outcome): Outcome {
    if rr == Unresolved then acc
    else if acc != Unresolved || rr == Ambiguous then Ambiguous
    else Unique(kind)
  }

  /** `resolveRec(j, predecessor)`: the number of readings of `s[j..]`, capped at two. */
  function Resolve(reg: Registry, s: string, j: nat, pred: TokenType): Outcome
    requires j <= |s|
    decreases |s| - j, 1, 0
  {
    if j == |s| then (if Precedes(pred, End) then Unique(pred) else Unresolved)
    else Fold(reg, s, j, pred, Candidates(reg, s, j), Unresolved)
  }

  function Fold(reg: Registry, s: string, j: nat, pred: TokenType, cands: seq<Candidate>, acc: Outcome): Outcome
    requires j < |s|
    requires forall c :: c in cands ==> j < c.end <= |s|
    decreases |s| - j, 0, |cands|
  {
    if |cands| == 0 then acc
    else
      var c := cands[0];
      var acc' := if Precedes(pred, c.kind) then Combine(acc, c.kind, Resolve(reg, s, c.end, c.kind)) else acc;
      Fold(reg, s, j, pred, cands[1..], acc')
  }

  // -------------------------------------------------------------- the proof

  /** The first non-space is the position `t` when only spaces come before it. */
  lemma {:induction false} FirstNonSpaceAt(s: string, j: nat, t: nat)
    requires j <= t < |s| && AllSpaces(s[j..t]) && !IsSpace(s[t])
    ensures FirstNonSpace(s, j) == t
    decreases t - j
  {
    if j < t {
      assert s[j..t][0] == s[j];
      assert s[j + 1..t] == s[j..t][1..];
      FirstNonSpaceAt(s, j + 1, t);
    }
  }

  /** Every reading of a non-empty rest starts with a candidate of its cell that the grammar permits. */
  lemma {:induction false} FirstPiece(reg: Registry, s: string, j: nat, pred: TokenType, pieces: seq<Piece>)
    requires j < |s| && Reading(reg, s, j, pred, pieces)
    ensures |pieces| > 0
    ensures pieces[0].start == FirstNonSpace(s, j)
    ensures Candidate(pieces[0].end, pieces[0].kind) in Candidates(reg, s, j)
    ensures Precedes(pred, pieces[0].kind)
    ensures Reading(reg, s, pieces[0].end, pieces[0].kind, pieces[1..])
  {
    var p := pieces[0];
    assert s[p.start..p.end][0] == s[p.start];
    FirstNonSpaceAt(s, j, p.start);
  }

  ghost predicate Live(reg: Registry, s: string, pred: TokenType, c: Candidate) {
    Precedes(pred, c.kind) && HasReading(reg, s, c.end, c.kind)
  }

  ghost predicate Twice(reg: Registry, s: string, pred: TokenType, c: Candidate) {
    Precedes(pred, c.kind) && HasTwoReadings(reg, s, c.end, c.kind)
  }

  ghost predicate AnyLive(reg: Registry, s: string, pred: TokenType, cands: seq<Candidate>) {
    exists c :: c in cands && Live(reg, s, pred, c)
  }

  ghost predicate AnyTwice(reg: Registry, s: string, pred: TokenType, cands: seq<Candidate>) {
    exists c :: c in cands && Twice(reg, s, pred, c)
  }

  ghost predicate TwoLive(reg: Registry, s: string, pred: TokenType, cands: seq<Candidate>) {
    exists c1, c2 :: c1 in cands && c2 in cands && c1 != c2 && Live(reg, s, pred, c1) && Live(reg, s, pred, c2)
  }

  lemma {:induction false} TwiceIsLive(reg: Registry, s: string, pred: TokenType, c: Candidate)
    requires Twice(reg, s, pred, c)
    ensures Live(reg, s, pred, c)
  {
    var p1: seq<Piece>, p2: seq<Piece> :| p1 != p2 && Reading(reg, s, c.end, c.kind, p1) && Reading(reg, s, c.end, c.kind, p2);
  }

  /** A prefix piece followed by a reading of the rest is a reading. */
  lemma {:induction false} Extend(reg: Registry, s: string, j: nat, pred: TokenType, c: Candidate, rest: seq<Piece>)
    requires j < |s| && c in Candidates(reg, s, j) && Precedes(pred, c.kind)
    requires Reading(reg, s, c.end, c.kind, rest)
    ensures Reading(reg, s, j, pred, [Piece(FirstNonSpace(s, j), c.end, c.kind)] + rest)
  {
    var pieces := [Piece(FirstNonSpace(s, j), c.end, c.kind)] + rest;
    assert pieces[1..] == rest;
  }

  /** A cell has a reading iff one of its candidates is live. */
  lemma {:induction false} ReadingVia(reg: Registry, s: string, j: nat, pred: TokenType)
    requires j < |s|
    ensures HasReading(reg, s, j, pred) <==> AnyLive(reg, s, pred, Candidates(reg, s, j))
  {
    var cands := Candidates(reg, s, j);
    if HasReading(reg, s, j, pred) {
      var pieces: seq<Piece> :| Reading(reg, s, j, pred, pieces);
      FirstPiece(reg, s, j, pred, pieces);
      assert Live(reg, s, pred, Candidate(pieces[0].end, pieces[0].kind));
    }
    if AnyLive(reg, s, pred, cands) {
      var c :| c in cands && Live(reg, s, pred, c);
      var rest: seq<Piece> :| Reading(reg, s, c.end, c.kind, rest);
      Extend(reg, s, j, pred, c, rest);
    }
  }

  /** Two readings of a cell come from one candidate read twice or from two live candidates. */
  lemma {:induction false} TwoReadingsSplit(reg: Registry, s: string, j: nat, pred: TokenType)
    requires j < |s|
    requires HasTwoReadings(reg, s, j, pred)
    ensures AnyTwice(reg, s, pred, Candidates(reg, s, j)) || TwoLive(reg, s, pred, Candidates(reg, s, j))
  {
    var cands := Candidates(reg, s, j);
    var p1: seq<Piece>, p2: seq<Piece> :| p1 != p2 && Reading(reg, s, j, pred, p1) && Reading(reg, s, j, pred, p2);
    FirstPiece(reg, s, j, pred, p1);
    FirstPiece(reg, s, j, pred, p2);
    var c1 := Candidate(p1[0].end, p1[0].kind);
    var c2 := Candidate(p2[0].end, p2[0].kind);
    if c1 == c2 {
      assert p1[0] == p2[0];
      assert p1 == [p1[0]] + p1[1..] && p2 == [p2[0]] + p2[1..];
      assert Twice(reg, s, pred, c1);
    } else {
      assert Live(reg, s, pred, c1) && Live(reg, s, pred, c2);
    }
  }

  /** A candidate read twice gives a cell two readings. */
  lemma {:induction false} TwiceGivesTwo(reg: Registry, s: string, j: nat, pred: TokenType, c: Candidate)
    requires j < |s| && c in Candidates(reg, s, j) && Twice(reg, s, pred, c)
    ensures HasTwoReadings(reg, s, j, pred)
  {
    var r1: seq<Piece>, r2: seq<Piece> :| r1 != r2 && Reading(reg, s, c.end, c.kind, r1) && Reading(reg, s, c.end, c.kind, r2);
    Extend(reg, s, j, pred, c, r1);
    Extend(reg, s, j, pred, c, r2);
    var head := [Piece(FirstNonSpace(s, j), c.end, c.kind)];
    var q1, q2 := head + r1, head + r2;
    assert q1[1..] == r1 && q2[1..] == r2;
    assert q1 != q2 && Reading(reg, s, j, pred, q1) && Reading(reg, s, j, pred, q2);
  }

  /** Two different live candidates give a cell two readings. */
  lemma {:induction false} TwoLiveGivesTwo(reg: Registry, s: string, j: nat, pred: TokenType, c1: Candidate, c2: Candidate)
    requires j < |s| && c1 in Candidates(reg, s, j) && c2 in Candidates(reg, s, j) && c1 != c2
    requires Live(reg, s, pred, c1) && Live(reg, s, pred, c2)
    ensures HasTwoReadings(reg, s, j, pred)
  {
    var r1: seq<Piece> :| Reading(reg, s, c1.end, c1.kind, r1);
    var r2: seq<Piece> :| Reading(reg, s, c2.end, c2.kind, r2);
    Extend(reg, s, j, pred, c1, r1);
    Extend(reg, s, j, pred, c2, r2);
    var a := FirstNonSpace(s, j);
    var q1 := [Piece(a, c1.end, c1.kind)] + r1;
    var q2 := [Piece(a, c2.end, c2.kind)] + r2;
    assert q1[0] != q2[0];
  }

  /** Without two readings, every reading starts with the one live candidate. */
  lemma {:induction false} OnlyLive(reg: Registry, s: string, j: nat, pred: TokenType, c: Candidate, pieces: seq<Piece>)
    requires j < |s| && c in Candidates(reg, s, j) && Live(reg, s, pred, c)
    requires !HasTwoReadings(reg, s, j, pred) && Reading(reg, s, j, pred, pieces)
    ensures |pieces| > 0 && pieces[0].kind == c.kind
  {
    FirstPiece(reg, s, j, pred, pieces);
    var c' := Candidate(pieces[0].end, pieces[0].kind);
    assert Live(reg, s, pred, c');
    if c' != c {
      TwoLiveGivesTwo(reg, s, j, pred, c, c');
    }
  }

  /** A cell has two readings iff a candidate is read twice or two candidates are live. */
  lemma {:induction false} TwoReadingsVia(reg: Registry, s: string, j: nat, pred: TokenType)
    requires j < |s|
    ensures HasTwoReadings(reg, s, j, pred) <==>
      AnyTwice(reg, s, pred, Candidates(reg, s, j)) || TwoLive(reg, s, pred, Candidates(reg, s, j))
  {
    var cands := Candidates(reg, s, j);
    if HasTwoReadings(reg, s, j, pred) {
      TwoReadingsSplit(reg, s, j, pred);
    } else if AnyTwice(reg, s, pred, cands) {
      var c :| c in cands && Twice(reg, s, pred, c);
      TwiceGivesTwo(reg, s, j, pred, c);
    } else if TwoLive(reg, s, pred, cands) {
      var c1, c2 :| c1 in cands && c2 in cands && c1 != c2 && Live(reg, s, pred, c1) && Live(reg, s, pred, c2);
      TwoLiveGivesTwo(reg, s, j, pred, c1, c2);
    }
  }

  /** Membership in a duplicate-free list, split at its head. */
  lemma {:induction false} HeadTail(cands: seq<Candidate>)
    requires |cands| > 0 && NoDuplicates(cands)
    ensures forall d :: d in cands <==> d == cands[0] || d in cands[1..]
    ensures cands[0] !in cands[1..]
    ensures NoDuplicates(cands[1..])
  {
    assert cands == [cands[0]] + cands[1..];
    assert forall i :: 0 <= i < |cands[1..]| ==> cands[1..][i] == cands[i + 1] != cands[0];
  }

  lemma {:induction false} SplitAnyLive(reg: Registry, s: string, pred: TokenType, cands: seq<Candidate>)
    requires |cands| > 0 && NoDuplicates(cands)
    ensures AnyLive(reg, s, pred, cands) <==> Live(reg, s, pred, cands[0]) || AnyLive(reg, s, pred, cands[1..])
  {
    HeadTail(cands);
  }

  lemma {:induction false} SplitAnyTwice(reg: Registry, s: string, pred: TokenType, cands: seq<Candidate>)
    requires |cands| > 0 && NoDuplicates(cands)
    ensures AnyTwice(reg, s, pred, cands) <==> Twice(reg, s, pred, cands[0]) || AnyTwice(reg, s, pred, cands[1..])
  {
    HeadTail(cands);
  }

  lemma {:induction false} SplitTwoLive(reg: Registry, s: string, pred: TokenType, cands: seq<Candidate>)
    requires |cands| > 0 && NoDuplicates(cands)
    ensures TwoLive(reg, s, pred, cands) <==>
      TwoLive(reg, s, pred, cands[1..]) || (Live(reg, s, pred, cands[0]) && AnyLive(reg, s, pred, cands[1..]))
  {
    HeadTail(cands);
    var c := cands[0];
    var rest := cands[1..];
    if TwoLive(reg, s, pred, cands) {
      var c1, c2 :| c1 in cands && c2 in cands && c1 != c2 && Live(reg, s, pred, c1) && Live(reg, s, pred, c2);
      if c1 == c {
        assert c2 in rest;
      } else if c2 == c {
        assert c1 in rest;
      }
    }
    if Live(reg, s, pred, c) && AnyLive(reg, s, pred, rest) {
      var d :| d in rest && Live(reg, s, pred, d);
      assert d in cands && c in cands && d != c;
    }
  }

  /**
   * The fold over a cell's candidates counts readings up to two: it is
   * unresolved iff nothing (before or now) has a reading, ambiguous iff two
   * readings are seen, and a unique outcome names the kind of the one reading.
   */
  lemma {:induction false} FoldCorrect(reg: Registry, s: string, j: nat, pred: TokenType, cands: seq<Candidate>, acc: Outcome)
    requires j < |s|
    requires forall c :: c in cands ==> j < c.end <= |s|
    requires NoDuplicates(cands)
    ensures var r := Fold(reg, s, j, pred, cands, acc);
      r == Unresolved <==> acc == Unresolved && !AnyLive(reg, s, pred, cands)
    ensures var r := Fold(reg, s, j, pred, cands, acc);
      r == Ambiguous <==>
        || acc == Ambiguous
        || (acc.Unique? && AnyLive(reg, s, pred, cands))
        || AnyTwice(reg, s, pred, cands)
        || TwoLive(reg, s, pred, cands)
    ensures var r := Fold(reg, s, j, pred, cands, acc);
      r.Unique? ==>
        || r == acc
        || (acc == Unresolved && exists c :: c in cands && Live(reg, s, pred, c) && c.kind == r.kind)
    decreases |s| - j, 0, |cands|
  {
    if |cands| == 0 {
      assert !AnyLive(reg, s, pred, cands) && !AnyTwice(reg, s, pred, cands) && !TwoLive(reg, s, pred, cands);
    } else {
      var c := cands[0];
      var rest := cands[1..];
      HeadTail(cands);
      SplitAnyLive(reg, s, pred, cands);
      SplitAnyTwice(reg, s, pred, cands);
      SplitTwoLive(reg, s, pred, cands);
      if Precedes(pred, c.kind) {
        ResolveCorrect(reg, s, c.end, c.kind);
        if Twice(reg, s, pred, c) {
          TwiceIsLive(reg, s, pred, c);
        }
      }
      var acc' := if Precedes(pred, c.kind) then Combine(acc, c.kind, Resolve(reg, s, c.end, c.kind)) else acc;
      FoldCorrect(reg, s, j, pred, rest, acc');
      var r := Fold(reg, s, j, pred, cands, acc);
      assert r == Fold(reg, s, j, pred, rest, acc');
      if r.Unique? && r != acc && acc == Unresolved && acc' != Unresolved {
        assert acc' == Unique(c.kind) && c in cands && Live(reg, s, pred, c);
      }
    }
  }

  /**
   * The search is exact: a cell is unresolved iff the rest of the input has no
   * reading, ambiguous iff it has two different readings, and a unique outcome
   * records the kind that every (so: the one) reading starts with.
   */
  lemma {:induction false} ResolveCorrect(reg: Registry, s: string, j: nat, pred: TokenType)
    requires j <= |s|
    ensures Resolve(reg, s, j, pred) == Unresolved <==> !HasReading(reg, s, j, pred)
    ensures Resolve(reg, s, j, pred) == Ambiguous <==> HasTwoReadings(reg, s, j, pred)
    ensures Resolve(reg, s, j, pred).Unique? ==>
      forall pieces :: Reading(reg, s, j, pred, pieces) ==> FirstKind(pred, pieces) == Resolve(reg, s, j, pred).kind
    decreases |s| - j, 1, 0
  {
    if j == |s| {
      EndCell(reg, s, pred);
    } else {
      var cands := Candidates(reg, s, j);
      FoldCorrect(reg, s, j, pred, cands, Unresolved);
      ReadingVia(reg, s, j, pred);
      TwoReadingsVia(reg, s, j, pred);
      var r := Resolve(reg, s, j, pred);
      if r.Unique? {
        var c :| c in cands && Live(reg, s, pred, c) && c.kind == r.kind;
        forall pieces: seq<Piece> | Reading(reg, s, j, pred, pieces)
          ensures FirstKind(pred, pieces) == r.kind
        {
          OnlyLive(reg, s, j, pred, c, pieces);
        }
      }
    }
  }

  /** At the end of the input the only possible reading is the empty one. */
  lemma {:induction false} EndCell(reg: Registry, s: string, pred: TokenType)
    ensures forall pieces :: Reading(reg, s, |s|, pred, pieces) ==> pieces == []
    ensures HasReading(reg, s, |s|, pred) <==> Precedes(pred, End)
    ensures !HasTwoReadings(reg, s, |s|, pred)
  {
    if Precedes(pred, End) {
      assert Reading(reg, s, |s|, pred, []);
    }
  }

  /** The first candidate whose sub-search is not unresolved. */
  function FirstLive(reg: Registry, s: string, j: nat, pred: TokenType, cands: seq<Candidate>): (r: Option<Candidate>)
    requires j < |s|
    requires forall c :: c in cands ==> j < c.end <= |s|
    ensures r.Some? ==> r.value in cands && Precedes(pred, r.value.kind)
                        && Resolve(reg, s, r.value.end, r.value.kind) != Unresolved
    ensures r.None? ==> forall c :: c in cands && Precedes(pred, c.kind) ==> Resolve(reg, s, c.end, c.kind) == Unresolved
  {
    if |cands| == 0 then None
    else if Precedes(pred, cands[0].kind) && Resolve(reg, s, cands[0].end, cands[0].kind) != Unresolved then Some(cands[0])
    else FirstLive(reg, s, j, pred, cands[1..])
  }

  /**
   * The replay of a unique search: from each cell, the one candidate that leads
   * to a reading. (The source scans its memo table for the cells holding a
   * kind; with a unique reading those are exactly the cells of this chain.)
   */
  function Walk(reg: Registry, s: string, j: nat, pred: TokenType): (pieces: seq<Piece>)
    requires j <= |s|
    requires Resolve(reg, s, j, pred).Unique?
    ensures Reading(reg, s, j, pred, pieces)
    decreases |s| - j
  {
    if j == |s| then []
    else
      var cands := Candidates(reg, s, j);
      ResolveCorrect(reg, s, j, pred);
      ReadingVia(reg, s, j, pred);
      var found := FirstLive(reg, s, j, pred, cands);
      assert found.Some? by {
        if found.None? {
          forall c | c in cands && Precedes(pred, c.kind) ensures !Live(reg, s, pred, c) {
            ResolveCorrect(reg, s, c.end, c.kind);
          }
        }
      }
      var c := found.value;
      ResolveCorrect(reg, s, c.end, c.kind);
      assert Resolve(reg, s, c.end, c.kind).Unique? by {
        if Resolve(reg, s, c.end, c.kind) == Ambiguous {
          TwiceGivesTwo(reg, s, j, pred, c);
        }
      }
      var rest := Walk(reg, s, c.end, c.kind);
      Extend(reg, s, j, pred, c, rest);
      [Piece(FirstNonSpace(s, j), c.end, c.kind)] + rest
  }

  /** Every piece lies inside `s`. */
  predicate Within(s: string, pieces: seq<Piece>) {
    forall i :: 0 <= i < |pieces| ==> pieces[i].start <= pieces[i].end <= |s|
  }

  /** The tokens of a reading: each piece's text with its kind. */
  function TokensOf(s: string, pieces: seq<Piece>): (r: seq<Token>)
    requires Within(s, pieces)
    ensures |r| == |pieces|
    ensures forall i :: 0 <= i < |r| ==> r[i] == Token(s[pieces[i].start..pieces[i].end], pieces[i].kind)
  {
    seq(|pieces|, i requires 0 <= i < |pieces| => Token(s[pieces[i].start..pieces[i].end], pieces[i].kind))
  }

  /** Whether every piece of a reading lies inside `s`. */
  lemma {:induction false} ReadingBounds(reg: Registry, s: string, j: nat, pred: TokenType, pieces: seq<Piece>)
    requires Reading(reg, s, j, pred, pieces)
    ensures forall i :: 0 <= i < |pieces| ==> j <= pieces[i].start < pieces[i].end <= |s|
    ensures forall i :: 0 <= i < |pieces| - 1 ==> pieces[i].end <= pieces[i + 1].start
    decreases |pieces|
  {
    if |pieces| > 0 {
      ReadingBounds(reg, s, pieces[0].end, pieces[0].kind, pieces[1..]);
    }
  }

  /**
   * `resolve(expression)`: the tokens of the input's only reading, or the
   * reason there is none.
   */
  function Tokenize(reg: Registry, s: string): (r: Result<seq<Token>, ParseError>)
    ensures r == Failure(CannotBeResolved) <==> !HasReading(reg, s, 0, Begin)
    ensures r == Failure(IsAmbiguous) <==> HasTwoReadings(reg, s, 0, Begin)
    ensures r.Success? ==> exists pieces :: Reading(reg, s, 0, Begin, pieces) && Within(s, pieces) && r.value == TokensOf(s, pieces)
    ensures r.Success? ==> forall p1, p2 :: Reading(reg, s, 0, Begin, p1) && Reading(reg, s, 0, Begin, p2) ==> p1 == p2
    ensures r.Failure? ==> r.error == CannotBeResolved || r.error == IsAmbiguous
  {
    ResolveCorrect(reg, s, 0, Begin);
    match Resolve(reg, s, 0, Begin)
    case Unresolved => Failure(CannotBeResolved)
    case Ambiguous => Failure(IsAmbiguous)
    case Unique(_) =>
      var pieces := Walk(reg, s, 0, Begin);
      ReadingBounds(reg, s, 0, Begin, pieces);
      Success(TokensOf(s, pieces))
  }

  // ----------------------------------------------------- what tokens satisfy

  /** The texts of a token list, end to end. */
  function Joined(tokens: seq<Token>): string {
    if |tokens| == 0 then [] else tokens[0].text + Joined(tokens[1..])
  }

  /** The kinds chain: each may follow the one before, starting after `pred` and ending before the end. */
  predicate Chained(pred: TokenType, tokens: seq<Token>)
    decreases |tokens|
  {
    if |tokens| == 0 then Precedes(pred, End)
    else Precedes(pred, tokens[0].kind) && Chained(tokens[0].kind, tokens[1..])
  }

  lemma {:induction false} TokensOfTail(s: string, pieces: seq<Piece>)
    requires |pieces| > 0 && Within(s, pieces)
    ensures Within(s, pieces[1..])
    ensures TokensOf(s, pieces)[1..] == TokensOf(s, pieces[1..])
  {
  }

  /** Together the tokens of a reading spell the rest of the input with its spaces removed. */
  lemma {:induction false} ReadingJoined(reg: Registry, s: string, j: nat, pred: TokenType, pieces: seq<Piece>)
    requires j <= |s| && Reading(reg, s, j, pred, pieces) && Within(s, pieces)
    ensures Joined(TokensOf(s, pieces)) == RemoveSpaces(s[j..])
    decreases |pieces|
  {
    if |pieces| == 0 {
      assert s[j..] == [];
    } else {
      var p := pieces[0];
      TokensOfTail(s, pieces);
      ReadingJoined(reg, s, p.end, p.kind, pieces[1..]);
      RemoveSpacesCut(s, j, p.start);
      RemoveSpacesCut(s, p.start, p.end);
      RemoveSpacesOfAllSpaces(s[j..p.start]);
      RemoveSpacesOfNoSpaces(s[p.start..p.end]);
    }
  }

  /** The kinds of a reading's tokens chain from `pred` to the end. */
  lemma {:induction false} ReadingChained(reg: Registry, s: string, j: nat, pred: TokenType, pieces: seq<Piece>)
    requires Reading(reg, s, j, pred, pieces) && Within(s, pieces)
    ensures Chained(pred, TokensOf(s, pieces))
    decreases |pieces|
  {
    if |pieces| > 0 {
      TokensOfTail(s, pieces);
      ReadingChained(reg, s, pieces[0].end, pieces[0].kind, pieces[1..]);
    }
  }

  /** Each token of a reading is a non-empty text without spaces. */
  lemma {:induction false} ReadingTexts(reg: Registry, s: string, j: nat, pred: TokenType, pieces: seq<Piece>)
    requires Reading(reg, s, j, pred, pieces) && Within(s, pieces)
    ensures forall t :: t in TokensOf(s, pieces) ==> |t.text| > 0 && NoSpaces(t.text)
    decreases |pieces|
  {
    if |pieces| > 0 {
      var toks := TokensOf(s, pieces);
      TokensOfTail(s, pieces);
      ReadingTexts(reg, s, pieces[0].end, pieces[0].kind, pieces[1..]);
      assert toks == [toks[0]] + toks[1..];
    }
  }

  /** A reading of a non-empty rest uses the last character, so that character is not a space. */
  lemma {:induction false} ReadingEndsInToken(reg: Registry, s: string, j: nat, pred: TokenType, pieces: seq<Piece>)
    requires j < |s| && Reading(reg, s, j, pred, pieces)
    ensures !IsSpace(s[|s| - 1])
    decreases |pieces|
  {
    var p := pieces[0];
    if p.end == |s| {
      assert s[p.start..p.end][|s| - 1 - p.start] == s[|s| - 1];
    } else {
      ReadingEndsInToken(reg, s, p.end, p.kind, pieces[1..]);
    }
  }

  /**
   * Spaces are skipped only before a token, so an input that ends in a space
   * never resolves, whatever precedes it.
   */
  lemma TrailingSpaceUnresolvable(reg: Registry, s: string)
    requires |s| > 0 && IsSpace(s[|s| - 1])
    ensures Tokenize(reg, s) == Failure(CannotBeResolved)
  {
    if HasReading(reg, s, 0, Begin) {
      var pieces: seq<Piece> :| Reading(reg, s, 0, Begin, pieces);
      ReadingEndsInToken(reg, s, 0, Begin, pieces);
    }
  }

  /** What a successful tokenisation delivers. */
  lemma TokenizeTokens(reg: Registry, s: string)
    requires Tokenize(reg, s).Success?
    ensures Joined(Tokenize(reg, s).value) == RemoveSpaces(s)
    ensures Chained(Begin, Tokenize(reg, s).value)
    ensures forall t :: t in Tokenize(reg, s).value ==> |t.text| > 0 && NoSpaces(t.text)
  {
    var pieces: seq<Piece> :| Reading(reg, s, 0, Begin, pieces) && Within(s, pieces) && Tokenize(reg, s).value == TokensOf(s, pieces);
    ReadingJoined(reg, s, 0, Begin, pieces);
    ReadingChained(reg, s, 0, Begin, pieces);
    ReadingTexts(reg, s, 0, Begin, pieces);
    assert s[0..] == s;
  }
}
