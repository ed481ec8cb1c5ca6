/**
 The per-organisation audit chain and its verification (lib/audit-hash.ts, lib/audit.ts).
 The digest of a row and its predecessor's hash is a parameter.
 */
module AuditChain {
  import opened Basics

  type Org = Option<string>

  /** What is hashed: everything of a row except its number and the two hashes. */
  datatype Content = Content(id: string, org: Org, fields: string)
  datatype Row = Row(seqNo: int, content: Content, prev: Option<string>, hash: string)

  type Digest = (Option<string>, Content) -> string

  datatype Reason = HashMismatch | PrevMismatch
  datatype Verdict = Intact(checked: nat) | BrokenAt(checked: nat, seqNo: int, reason: Reason)
  datatype Progress = Progress(verdict: Verdict, last: Option<string>)

  /** What `continueChain` finds from a given predecessor hash and count on. */
  function Continue(h: Digest, rows: seq<Row>, prev: Option<string>, checked: nat): Progress {
    if |rows| == 0 then Progress(Intact(checked), prev)
    else if rows[0].prev != prev then Progress(BrokenAt(checked, rows[0].seqNo, PrevMismatch), prev)
    else if h(rows[0].prev, rows[0].content) != rows[0].hash then
      Progress(BrokenAt(checked, rows[0].seqNo, HashMismatch), prev)
    else Continue(h, rows[1..], Some(rows[0].hash), checked + 1)
  }

  predicate Linked(h: Digest, row: Row, prev: Option<string>) {
    row.prev == prev && row.hash == h(prev, row.content)
  }

  /** The hash row `i` has to name. */
  function Before(rows: seq<Row>, i: nat, prev: Option<string>): Option<string>
    requires i < |rows|
  {
    if i == 0 then prev else Some(rows[i - 1].hash)
  }

  predicate VerifiesFrom(h: Digest, rows: seq<Row>, prev: Option<string>) {
    forall i :: 0 <= i < |rows| ==> Linked(h, rows[i], Before(rows, i, prev))
  }

  /** A chain verifies when each row names its predecessor's hash and carries its own. */
  predicate Verifies(h: Digest, rows: seq<Row>) {
    VerifiesFrom(h, rows, None)
  }

  /** `continueChain`: one pass, stopping at the first broken row. */
  method ContinueChain(h: Digest, rows: seq<Row>, from: Option<string>, checked: nat) returns (p: Progress)
    ensures p == Continue(h, rows, from, checked)
  {
    var expected, count, i := from, checked, 0;
    while i < |rows|
      invariant 0 <= i <= |rows|
      invariant Continue(h, rows, from, checked) == Continue(h, rows[i..], expected, count)
    {
      var row := rows[i];
      assert rows[i..][1..] == rows[i + 1..];
      if row.prev != expected {
        return Progress(BrokenAt(count, row.seqNo, PrevMismatch), expected);
      }
      if h(row.prev, row.content) != row.hash {
        return Progress(BrokenAt(count, row.seqNo, HashMismatch), expected);
      }
      expected := Some(row.hash);
      count := count + 1;
      i := i + 1;
    }
    p := Progress(Intact(count), expected);
  }

  lemma VerifiesTail(h: Digest, rows: seq<Row>, prev: Option<string>)
    requires |rows| > 0
    ensures VerifiesFrom(h, rows, prev) <==> Linked(h, rows[0], prev) && VerifiesFrom(h, rows[1..], Some(rows[0].hash))
  {
    hide Linked;
    var rest, head := rows[1..], Some(rows[0].hash);
    assert forall i :: 0 <= i < |rest| ==> Before(rest, i, head) == Before(rows, i + 1, prev);
    if VerifiesFrom(h, rows, prev) {
      assert Linked(h, rows[0], Before(rows, 0, prev));
      forall i | 0 <= i < |rest| ensures Linked(h, rest[i], Before(rest, i, head)) {
        assert Linked(h, rows[i + 1], Before(rows, i + 1, prev));
      }
    }
    if Linked(h, rows[0], prev) && VerifiesFrom(h, rest, head) {
      forall i | 0 <= i < |rows| ensures Linked(h, rows[i], Before(rows, i, prev)) {
        if i > 0 {
          assert Linked(h, rest[i - 1], Before(rest, i - 1, head));
        }
      }
    }
  }

  /** The pass answers "intact", with the number of rows, exactly for chains that verify. */
  lemma {:induction false} IntactIsVerified(h: Digest, rows: seq<Row>, prev: Option<string>, checked: nat)
    ensures Continue(h, rows, prev, checked).verdict.Intact? <==> VerifiesFrom(h, rows, prev)
    ensures Continue(h, rows, prev, checked).verdict.Intact? ==>
              Continue(h, rows, prev, checked).verdict.checked == checked + |rows|
  {
    if |rows| > 0 {
      VerifiesTail(h, rows, prev);
      IntactIsVerified(h, rows[1..], Some(rows[0].hash), checked + 1);
    }
  }

  /** Row `i` is the first that does not hold: it names another predecessor, or its own hash is another. */
  predicate BreaksAt(h: Digest, rows: seq<Row>, prev: Option<string>, i: nat) {
    && i < |rows|
    && VerifiesFrom(h, rows[..i], prev)
    && (rows[i].prev != Before(rows, i, prev) || rows[i].hash != h(rows[i].prev, rows[i].content))
  }

  /** What is reported of a break at row `i`, when `checked` rows were verified before the first. */
  function BreakReport(rows: seq<Row>, prev: Option<string>, checked: nat, i: nat): Verdict
    requires i < |rows|
  {
    BrokenAt(checked + i, rows[i].seqNo, if rows[i].prev != Before(rows, i, prev) then PrevMismatch else HashMismatch)
  }

  /** Before a first break there is none. */
  lemma NoEarlierBreak(h: Digest, rows: seq<Row>, prev: Option<string>, i: nat, j: nat)
    requires i < j && BreaksAt(h, rows, prev, j)
    ensures !BreaksAt(h, rows, prev, i)
  {
    assert Linked(h, rows[..j][i], Before(rows[..j], i, prev));
  }

  /** A break behind a row that holds. */
  lemma BreaksBehind(h: Digest, rows: seq<Row>, prev: Option<string>, checked: nat, i: nat)
    requires |rows| > 0 && Linked(h, rows[0], prev) && BreaksAt(h, rows[1..], Some(rows[0].hash), i)
    ensures BreaksAt(h, rows, prev, i + 1)
    ensures BreakReport(rows, prev, checked, i + 1) == BreakReport(rows[1..], Some(rows[0].hash), checked + 1, i)
    ensures Before(rows, i + 1, prev) == Before(rows[1..], i, Some(rows[0].hash))
  {
    hide VerifiesFrom;
    VerifiesTail(h, rows[..i + 2], prev);
    VerifiesTail(h, rows[..i + 1], prev);
    assert rows[..i + 1][1..] == rows[1..][..i];
  }

  /** The hash the next stretch has to name. */
  function LastOf(rows: seq<Row>, prev: Option<string>): Option<string> {
    if |rows| == 0 then prev else Some(rows[|rows| - 1].hash)
  }

  /** A chain verifies, or it has a first break, and that is what the pass reports. */
  lemma {:induction false} BreakReported(h: Digest, rows: seq<Row>, prev: Option<string>, checked: nat) returns (i: nat)
    ensures var p := Continue(h, rows, prev, checked);
            || (VerifiesFrom(h, rows, prev) && p == Progress(Intact(checked + |rows|), LastOf(rows, prev)))
            || (BreaksAt(h, rows, prev, i)
                && p == Progress(BreakReport(rows, prev, checked, i), Before(rows, i, prev)))
  {
    hide VerifiesFrom;
    i := 0;
    if |rows| == 0 {
      NothingToVerify(h, prev);
    } else if Linked(h, rows[0], prev) {
      var head := Some(rows[0].hash);
      i := BreakReported(h, rows[1..], head, checked + 1);
      VerifiesTail(h, rows, prev);
      if BreaksAt(h, rows[1..], head, i) {
        BreaksBehind(h, rows, prev, checked, i);
        i := i + 1;
      }
    } else {
      NothingToVerify(h, prev);
      assert rows[..0] == [];
    }
  }

  lemma NothingToVerify(h: Digest, prev: Option<string>)
    ensures VerifiesFrom(h, [], prev)
  {
  }

  /**
   Exactly what the pass reports: "broken" with a count, a number and a reason if and only if
   the rows before some row verify, that row does not hold, its number is the one reported, the
   count is that of the rows before it, and the reason is the predecessor's hash exactly when
   that is what differs.
   */
  lemma BrokenExactly(h: Digest, rows: seq<Row>, prev: Option<string>, checked: nat, c: nat, n: int, reason: Reason)
    ensures Continue(h, rows, prev, checked).verdict == BrokenAt(c, n, reason) <==>
              exists i :: 0 <= i < |rows| && BreaksAt(h, rows, prev, i)
                          && c == checked + i && n == rows[i].seqNo
                          && (reason == PrevMismatch <==> rows[i].prev != Before(rows, i, prev))
  {
    hide Continue;
    var k := BreakReported(h, rows, prev, checked);
    forall i | 0 <= i < |rows| && BreaksAt(h, rows, prev, i)
      ensures i == k && !VerifiesFrom(h, rows, prev)
    {
      NotBroken(h, rows, prev, i);
      if BreaksAt(h, rows, prev, k) {
        if k < i {
          NoEarlierBreak(h, rows, prev, k, i);
        } else if i < k {
          NoEarlierBreak(h, rows, prev, i, k);
        }
      }
    }
  }

  lemma NotBroken(h: Digest, rows: seq<Row>, prev: Option<string>, i: nat)
    requires BreaksAt(h, rows, prev, i)
    ensures !VerifiesFrom(h, rows, prev)
  {
    assert !Linked(h, rows[i], Before(rows, i, prev));
  }

  /** Verifying two stretches one after the other is verifying them at once. */
  lemma {:induction false} ContinueSplit(h: Digest, a: seq<Row>, b: seq<Row>, prev: Option<string>, checked: nat)
    ensures var first := Continue(h, a, prev, checked);
            Continue(h, a + b, prev, checked) ==
              if first.verdict.Intact? then Continue(h, b, first.last, first.verdict.checked) else first
  {
    if |a| == 0 {
      assert a + b == b;
    } else {
      assert (a + b)[1..] == a[1..] + b;
      ContinueSplit(h, a[1..], b, Some(a[0].hash), checked + 1);
    }
  }

  // ----- block by block

  predicate Ascending(rows: seq<Row>) {
    forall i, j :: 0 <= i < j < |rows| ==> rows[i].seqNo < rows[j].seqNo
  }

  /** The rows with a number above `last`, in order: the condition of the block query. */
  function Above(rows: seq<Row>, last: Option<int>): seq<Row> {
    if |rows| == 0 then []
    else
      var init, row := rows[..|rows| - 1], rows[|rows| - 1];
      if last.None? || row.seqNo > last.value then Above(init, last) + [row] else Above(init, last)
  }

  function Limit(rows: seq<Row>, n: nat): (r: seq<Row>)
    ensures r <= rows && |r| <= n && (|r| < n ==> r == rows)
  {
    if |rows| <= n then rows else rows[..n]
  }

  lemma {:induction false} AboveNone(rows: seq<Row>)
    ensures Above(rows, None) == rows
  {
    if |rows| > 0 {
      AboveNone(rows[..|rows| - 1]);
    }
  }

  /** Above the number of a row are exactly the rows behind it. */
  lemma {:induction false} AboveRow(done: seq<Row>, rest: seq<Row>)
    requires |done| > 0 && Ascending(done + rest)
    ensures Above(done + rest, Some(done[|done| - 1].seqNo)) == rest
  {
    var last := done[|done| - 1];
    if |rest| == 0 {
      assert done + rest == done;
      assert forall i :: 0 <= i < |done| ==> (done + rest)[i].seqNo <= last.seqNo;
      AboveAll(done, last.seqNo);
    } else {
      var init, row := rest[..|rest| - 1], rest[|rest| - 1];
      assert done + rest == done + init + [row];
      assert (done + rest)[|done| - 1] == last && (done + rest)[|done + rest| - 1] == row;
      assert (done + rest)[..|done + rest| - 1] == done + init;
      assert Ascending((done + rest)[..|done + rest| - 1]);
      AboveRow(done, init);
    }
  }

  lemma {:induction false} AboveAll(rows: seq<Row>, last: int)
    requires forall i :: 0 <= i < |rows| ==> rows[i].seqNo <= last
    ensures Above(rows, Some(last)) == []
  {
    if |rows| > 0 {
      AboveAll(rows[..|rows| - 1], last);
    }
  }

  lemma ContinueNone(h: Digest)
    ensures Continue(h, [], None, 0) == Progress(Intact(0), None)
  {
  }

  /** One block: what is known after the rows done so far, taken one block further. */
  lemma BlockStep(h: Digest, done: seq<Row>, rows: seq<Row>, rest: seq<Row>, state: Progress)
    requires state.verdict.Intact? && Continue(h, done, None, 0) == state
    ensures Continue(h, done + rows, None, 0) == Continue(h, rows, state.last, state.verdict.checked)
    ensures var next := Continue(h, rows, state.last, state.verdict.checked);
            (!next.verdict.Intact? || rest == []) ==> Continue(h, done + rows + rest, None, 0) == next
  {
    hide Continue;
    ContinueSplit(h, done, rows, None, 0);
    ContinueSplit(h, done + rows, rest, None, 0);
    assert rest == [] ==> done + rows + rest == done + rows;
  }

  /**
   `verifyAuditChain`: for every positive block size the loop ends with the verdict, the
   count, the broken number and the reason of a single pass over the whole chain.
   */
  method VerifyInBlocks(h: Digest, chain: seq<Row>, block: nat) returns (v: Verdict)
    requires Ascending(chain) && block > 0
    ensures v == Continue(h, chain, None, 0).verdict
    ensures v == Intact(|chain|) || exists i :: 0 <= i < |chain| && BreaksAt(h, chain, None, i)
                                                && v == BreakReport(chain, None, 0, i)
    ensures v.Intact? <==> Verifies(h, chain)
  {
    hide *;
    ContinueNone(h);
    var state, last: Option<int>, finished := Progress(Intact(0), None), None, false;
    ghost var done, rest := [], chain;
    AboveNone(chain);
    while !finished
      invariant chain == done + rest && (!finished ==> Above(chain, last) == rest)
      invariant !finished ==> state.verdict.Intact? && Continue(h, done, None, 0) == state
      invariant finished ==> Continue(h, chain, None, 0) == state
      decreases !finished, |rest|
    {
      var rows := Limit(Above(chain, last), block);
      ghost var rest' := rest[|rows|..];
      assert rest == rows + rest';
      assert chain == done + rows + rest';
      BlockStep(h, done, rows, rest', state);
      state := ContinueChain(h, rows, state.last, state.verdict.checked);
      done, rest := done + rows, rest';
      if !state.verdict.Intact? || |rows| < block {
        finished := true;
      } else {
        last := Some(rows[|rows| - 1].seqNo);
        AboveRow(done, rest);
      }
    }
    v := state.verdict;
    Reported(h, chain);
  }

  lemma Reported(h: Digest, chain: seq<Row>)
    ensures var v := Continue(h, chain, None, 0).verdict;
            && (v == Intact(|chain|) || exists i :: 0 <= i < |chain| && BreaksAt(h, chain, None, i)
                                                    && v == BreakReport(chain, None, 0, i))
            && (v.Intact? <==> Verifies(h, chain))
  {
    hide Continue;
    var i := BreakReported(h, chain, None, 0);
    IntactIsVerified(h, chain, None, 0);
  }
}
