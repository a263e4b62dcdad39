/** The mention scan of `sendMessageService`: the global pattern
    `@[<name>](<id>)` run with repeated `exec` calls, where the name runs to
    the first `]`, the id runs to the first `)`, and neither may be empty.
    Each match contributes its id once, in first-occurrence order, and never
    the sender's own id. */
module MentionScan {
  import opened Common

  /** One match of the pattern: `@[` at `start`, the name's closing `]` at
      `close`, `(` right after it, and the id's closing `)` at `paren`. */
  datatype Hit = Hit(start: nat, close: nat, paren: nat)

  ghost predicate IsHit(s: string, h: Hit) {
    && h.start + 2 < h.close
    && h.close + 2 < h.paren < |s|
    && s[h.start] == '@' && s[h.start + 1] == '['
    && (forall t :: h.start + 2 <= t < h.close ==> s[t] != ']')
    && s[h.close] == ']' && s[h.close + 1] == '('
    && (forall t :: h.close + 2 <= t < h.paren ==> s[t] != ')')
    && s[h.paren] == ')'
  }

  /** The id captured by a match: the text between its parentheses. */
  function IdOf(s: string, h: Hit): string
    requires h.close + 2 <= h.paren <= |s|
  {
    s[h.close + 2 .. h.paren]
  }

  /** At most one match starts at a given position: the greedy name and id
      can only end at the first `]` and the first `)`. */
  lemma HitUnique(s: string, h: Hit, g: Hit)
    requires IsHit(s, h) && IsHit(s, g) && h.start == g.start
    ensures h == g
  {
  }

  /** Index of the first `c` in `s` at or after `from`, or `|s|` if none. */
  function IndexFrom(s: string, c: char, from: nat): (k: nat)
    requires from <= |s|
    ensures from <= k <= |s|
    ensures k < |s| ==> s[k] == c
    ensures forall t :: from <= t < k ==> s[t] != c
    decreases |s| - from
  {
    if from == |s| || s[from] == c then from else IndexFrom(s, c, from + 1)
  }

  /** One attempt of the pattern anchored at position `i`. */
  function MatchAt(s: string, i: nat): (r: Option<Hit>)
    ensures r.Some? ==> r.value.start == i && IsHit(s, r.value)
    ensures r.None? ==> forall c, p :: !IsHit(s, Hit(i, c, p))
  {
    if i + 2 <= |s| && s[i] == '@' && s[i + 1] == '[' then
      var c := IndexFrom(s, ']', i + 2);
      if i + 2 < c && c + 1 < |s| && s[c + 1] == '(' then
        var p := IndexFrom(s, ')', c + 2);
        if c + 2 < p < |s| then Some(Hit(i, c, p)) else None
      else None
    else None
  }

  /** Where a match of the pattern may lie in a text of length `n`: a
      match reported at `i` starts at `i`, has a non-empty name and id, and
      closes inside the text. */
  ghost predicate Anchored(m: nat -> Option<Hit>, n: nat) {
    forall i :: m(i).Some? ==>
      var h := m(i).value;
      h.start == i && h.start + 2 < h.close && h.close + 2 < h.paren < n
  }

  /** The mention pattern, ready to be run over `s`. */
  function Pattern(s: string): (m: nat -> Option<Hit>)
    ensures Anchored(m, |s|)
    ensures forall i :: m(i) == MatchAt(s, i)
  {
    (i: nat) => MatchAt(s, i)
  }

  /** One `exec` of a global pattern `m` whose search starts at `from` (the
      pattern's `lastIndex`): the leftmost match at or after it. */
  function NextHit(m: nat -> Option<Hit>, n: nat, from: nat): (r: Option<Hit>)
    requires Anchored(m, n)
    ensures r.Some? ==> from <= r.value.start && m(r.value.start) == r
    decreases n - from
  {
    if from >= n then None
    else
      match m(from)
      case Some(h) => Some(h)
      case None => NextHit(m, n, from + 1)
  }

  /** `exec` finds the leftmost match: none begins between `from` and the
      match it reports, nor anywhere after `from` when it reports none. */
  lemma {:induction false} NextHitLeftmost(m: nat -> Option<Hit>, n: nat, from: nat, p: nat)
    requires Anchored(m, n)
    requires from <= p
    requires NextHit(m, n, from).None? || p < NextHit(m, n, from).value.start
    ensures m(p).None?
    decreases n - from
  {
    if from < n && m(from).None? && from < p {
      NextHitLeftmost(m, n, from + 1, p);
    }
  }

  /** Every match the `exec` loop visits when it starts at `from`. */
  function Hits(m: nat -> Option<Hit>, n: nat, from: nat): (r: seq<Hit>)
    requires Anchored(m, n)
    ensures forall k :: 0 <= k < |r| ==> m(r[k].start) == Some(r[k]) && from <= r[k].start
    ensures forall k :: 0 <= k < |r| ==> r[k].close + 2 < r[k].paren < n
    decreases n - from
  {
    match NextHit(m, n, from)
    case None => []
    case Some(h) => [h] + Hits(m, n, h.paren + 1)
  }

  /** Matches listed left to right, each ending before the next begins. */
  ghost predicate LeftToRight(hs: seq<Hit>) {
    forall i, j :: 0 <= i < j < |hs| ==> hs[i].paren < hs[j].start
  }

  /** One step of the `exec` loop: the match `exec` reports, then those found
      after its closing `)`. */
  lemma HitsStep(m: nat -> Option<Hit>, n: nat, from: nat, h: Hit)
    requires Anchored(m, n) && NextHit(m, n, from) == Some(h)
    ensures Hits(m, n, from) == [h] + Hits(m, n, h.paren + 1)
  {
  }

  /** The visited matches come left to right and do not overlap. */
  lemma {:induction false} HitsOrdered(m: nat -> Option<Hit>, n: nat, from: nat)
    requires Anchored(m, n)
    ensures LeftToRight(Hits(m, n, from))
    decreases n - from
  {
    var next := NextHit(m, n, from);
    if next.Some? {
      var h := next.value;
      HitsStep(m, n, from, h);
      HitsOrdered(m, n, h.paren + 1);
      LeftToRightCons(h, Hits(m, n, h.paren + 1));
    }
  }

  /** A match put in front of ordered matches that all begin after it ends. */
  lemma LeftToRightCons(h: Hit, tail: seq<Hit>)
    requires LeftToRight(tail)
    requires forall k :: 0 <= k < |tail| ==> h.paren < tail[k].start
    ensures LeftToRight([h] + tail)
  {
    var r := [h] + tail;
    forall i, j | 0 <= i < j < |r| ensures r[i].paren < r[j].start {
      assert r[j] == tail[j - 1];
      if i > 0 {
        assert r[i] == tail[i - 1];
      }
    }
  }

  /** Position `p` lies within one of the matches `hs`. */
  ghost predicate Covered(hs: seq<Hit>, p: nat) {
    exists k :: 0 <= k < |hs| && hs[k].start <= p <= hs[k].paren
  }

  /** A position within the first match, or within a later one, is covered. */
  lemma CoveredCons(h: Hit, tail: seq<Hit>, p: nat)
    requires h.start <= p <= h.paren || Covered(tail, p)
    ensures Covered([h] + tail, p)
  {
    var r := [h] + tail;
    if h.start <= p <= h.paren {
      assert r[0] == h;
    } else {
      var k :| 0 <= k < |tail| && tail[k].start <= p <= tail[k].paren;
      assert r[k + 1] == tail[k];
    }
  }

  /** The scan skips only matches that overlap a visited one: every match
      that begins at or after `from` lies within a visited match. */
  lemma {:induction false} HitsCover(m: nat -> Option<Hit>, n: nat, from: nat, p: nat)
    requires Anchored(m, n)
    requires from <= p && m(p).Some?
    ensures Covered(Hits(m, n, from), p)
    decreases n - from
  {
    var next := NextHit(m, n, from);
    if next.None? || p < next.value.start {
      NextHitLeftmost(m, n, from, p);
    }
    var h := next.value;
    HitsStep(m, n, from, h);
    if h.paren < p {
      HitsCover(m, n, h.paren + 1, p);
    }
    CoveredCons(h, Hits(m, n, h.paren + 1), p);
  }

  /** The matches of the mention pattern in `content`, in scan order. */
  function ScannedHits(content: string): (r: seq<Hit>)
    ensures forall k :: 0 <= k < |r| ==> IsHit(content, r[k])
  {
    Hits(Pattern(content), |content|, 0)
  }

  /** The scan over `content` visits its matches left to right, and every
      match of the pattern in `content` lies within a visited one. */
  lemma ScannedHitsComplete(content: string)
    ensures LeftToRight(ScannedHits(content))
    ensures forall p :: MatchAt(content, p).Some? ==> Covered(ScannedHits(content), p)
  {
    var m := Pattern(content);
    HitsOrdered(m, |content|, 0);
    forall p | MatchAt(content, p).Some? ensures Covered(ScannedHits(content), p) {
      assert m(p) == MatchAt(content, p);
      HitsCover(m, |content|, 0, p);
    }
  }

  /** The ids the `exec` loop captures when it starts at `from`: for each
      visited match, the text between its parentheses. */
  function CapturedIds(m: nat -> Option<Hit>, s: string, from: nat): seq<UserId>
    requires Anchored(m, |s|)
    decreases |s| - from
  {
    match NextHit(m, |s|, from)
    case None => []
    case Some(h) => [IdOf(s, h)] + CapturedIds(m, s, h.paren + 1)
  }

  /** The captured ids are those of the visited matches, one per match. */
  lemma {:induction false} CapturedIdsOfHits(m: nat -> Option<Hit>, s: string, from: nat)
    requires Anchored(m, |s|)
    ensures var ids, hs := CapturedIds(m, s, from), Hits(m, |s|, from);
      |ids| == |hs| &&
      forall k :: 0 <= k < |hs| ==> ids[k] == IdOf(s, hs[k])
    decreases |s| - from
  {
    var next := NextHit(m, |s|, from);
    if next.Some? {
      var h := next.value;
      CapturedIdsOfHits(m, s, h.paren + 1);
      var hs := Hits(m, |s|, from);
      var ids := CapturedIds(m, s, from);
      var tail := Hits(m, |s|, h.paren + 1);
      assert hs == [h] + tail;
      assert ids == [IdOf(s, h)] + CapturedIds(m, s, h.paren + 1);
      forall k | 0 < k < |hs| ensures ids[k] == IdOf(s, hs[k]) {
        assert hs[k] == tail[k - 1];
      }
    }
  }

  /** The ids the pattern captures in `content`, in scan order: each is the
      text between the parentheses of a match, never empty and free of `)`. */
  function ScannedIds(content: string): (r: seq<UserId>)
    ensures |r| == |ScannedHits(content)|
    ensures forall k :: 0 <= k < |r| ==> r[k] == IdOf(content, ScannedHits(content)[k])
    ensures forall k :: 0 <= k < |r| ==> r[k] != [] && ')' !in r[k]
  {
    CapturedIdsOfHits(Pattern(content), content, 0);
    CapturedIds(Pattern(content), content, 0)
  }

  /** The body of the `exec` loop applied to each id in turn: an id is pushed
      unless it was pushed already or is the sender's. */
  function AddNew(acc: seq<UserId>, ids: seq<UserId>, sender: UserId): seq<UserId>
    decreases |ids|
  {
    if ids == [] then acc
    else AddNew(Pushed(acc, ids[0], sender), ids[1..], sender)
  }

  /** The loop body's push: `id` is appended unless `acc` already holds it
      or it is the sender's. */
  function Pushed(acc: seq<UserId>, id: UserId, sender: UserId): seq<UserId> {
    if id !in acc && id != sender then acc + [id] else acc
  }

  /** The `mentions` list `sendMessageService` stores with a new message. */
  function Mentions(content: string, sender: UserId): seq<UserId> {
    AddNew([], ScannedIds(content), sender)
  }

  /** What the accumulation keeps: the ids already collected, then every
      scanned id that is new and not the sender's, once, ordered by where it
      first occurs in the scan. */
  lemma {:induction false} AddNewSpec(acc: seq<UserId>, ids: seq<UserId>, sender: UserId)
    requires NoDuplicates(acc) && sender !in acc
    ensures var r := AddNew(acc, ids, sender);
      && |acc| <= |r| && r[..|acc|] == acc
      && NoDuplicates(r) && sender !in r
      && (forall x :: x in r <==> x in acc || (x in ids && x != sender))
      && (forall i :: |acc| <= i < |r| ==> r[i] in ids && r[i] !in acc)
      && (forall i, j :: |acc| <= i < j < |r| ==>
            r[i] in ids && r[j] in ids && FirstIndex(ids, r[i]) < FirstIndex(ids, r[j]))
    decreases |ids|
  {
    if ids != [] {
      var x, rest := ids[0], ids[1..];
      assert ids == [x] + rest;
      var acc' := if x !in acc && x != sender then acc + [x] else acc;
      assert NoDuplicates(acc') && sender !in acc';
      AddNewSpec(acc', rest, sender);
      var r := AddNew(acc, ids, sender);
      assert r == AddNew(acc', rest, sender);
      assert r[..|acc|] == acc by {
        assert r[..|acc'|][..|acc|] == acc'[..|acc|];
      }
      forall i | |acc| <= i < |r| ensures r[i] in ids && r[i] !in acc && (r[i] != x ==> FirstIndex(ids, r[i]) == 1 + FirstIndex(rest, r[i])) {
        if i >= |acc'| {
          assert r[i] in rest && r[i] !in acc';
          if r[i] != x {
            assert FirstIndex(ids, r[i]) == 1 + FirstIndex(rest, r[i]);
          }
        } else {
          assert acc' == acc + [x] && i == |acc|;
          assert r[i] == acc'[i] == x;
        }
      }
      forall i, j | |acc| <= i < j < |r|
        ensures FirstIndex(ids, r[i]) < FirstIndex(ids, r[j])
      {
        assert r[j] != r[i];
        if r[i] == x {
          assert FirstIndex(ids, x) == 0;
        } else {
          assert i >= |acc'|;
          assert r[j] != x by {
            if x in acc' { assert r[..|acc'|] == acc'; }
          }
        }
      }
    }
  }

  /** One turn of the `exec` loop: the match found at or after `from`
      contributes its id, and the search resumes after its closing `)`. */
  lemma CapturedIdsStep(m: nat -> Option<Hit>, s: string, from: nat, h: Hit, acc: seq<UserId>, sender: UserId)
    requires Anchored(m, |s|) && NextHit(m, |s|, from) == Some(h)
    ensures h.close + 2 < h.paren < |s|
    ensures AddNew(acc, CapturedIds(m, s, from), sender)
         == AddNew(Pushed(acc, IdOf(s, h), sender), CapturedIds(m, s, h.paren + 1), sender)
  {
    var ids := CapturedIds(m, s, from);
    assert m(h.start) == Some(h);
    assert ids == [IdOf(s, h)] + CapturedIds(m, s, h.paren + 1);
    assert ids[1..] == CapturedIds(m, s, h.paren + 1);
  }

  /** The `exec` loop of `sendMessageService` run with the global pattern
      `mentionRegex` over `content`: each visited match pushes its captured id
      when it is new and is not the sender's. */
  method ScanMentions(mentionRegex: nat -> Option<Hit>, content: string, sender: UserId) returns (ids: seq<UserId>)
    requires Anchored(mentionRegex, |content|)
    ensures ids == AddNew([], CapturedIds(mentionRegex, content, 0), sender)
  {
    ids := [];
    var from := 0;
    var next := NextHit(mentionRegex, |content|, 0);
    ghost var target := AddNew([], CapturedIds(mentionRegex, content, 0), sender);
    while next.Some?
      invariant from <= |content|
      invariant next == NextHit(mentionRegex, |content|, from)
      invariant AddNew(ids, CapturedIds(mentionRegex, content, from), sender) == target
      decreases |content| - from
    {
      var h := next.value;
      CapturedIdsStep(mentionRegex, content, from, h, ids, sender);
      var id := IdOf(content, h);
      ids := Pushed(ids, id, sender);
      from := h.paren + 1;
      next := NextHit(mentionRegex, |content|, from);
    }
    assert CapturedIds(mentionRegex, content, from) == [];
  }

  /** The mention scan of `sendMessageService` over a message's content. */
  method ExtractMentions(content: string, sender: UserId) returns (ids: seq<UserId>)
    ensures ids == Mentions(content, sender)
    ensures NoDuplicates(ids) && sender !in ids
    ensures forall x :: x in ids <==> x in ScannedIds(content) && x != sender
    ensures forall i, j :: 0 <= i < j < |ids| ==>
      FirstIndex(ScannedIds(content), ids[i]) < FirstIndex(ScannedIds(content), ids[j])
  {
    ids := ScanMentions(Pattern(content), content, sender);
    AddNewSpec([], ScannedIds(content), sender);
  }

  /** A message mentions nobody exactly when every id it captures is the
      sender's own (in particular when it captures none). */
  lemma NoMentionsIff(content: string, sender: UserId)
    ensures Mentions(content, sender) == [] <==>
      forall k :: 0 <= k < |ScannedIds(content)| ==> ScannedIds(content)[k] == sender
  {
    var ids := ScannedIds(content);
    AddNewSpec([], ids, sender);
    if Mentions(content, sender) == [] {
      forall k | 0 <= k < |ids| ensures ids[k] == sender {
        assert ids[k] !in Mentions(content, sender);
      }
    } else {
      assert Mentions(content, sender)[0] in ids;
    }
  }
}
