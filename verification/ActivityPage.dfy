/**
 Paging through the activity stream (lib/activity-page.ts): two lists, each in descending
 order, merged by time and cut into pages, with a cursor that is printed into the link and
 read back from it.
 */
module ActivityPages {
  import opened Basics

  datatype Audit = Audit(seqNo: nat, at: int)
  datatype Comment = Comment(id: string, createdAt: int, cursorAt: string)
  datatype Mark = Mark(at: string, id: string)
  datatype Cursor = Cursor(auditSeq: Option<nat>, comment: Option<Mark>)

  const START := Cursor(None, None)
  const INT8_MAX: nat := 9223372036854775807

  // ----- taking one page

  datatype Page = Page(audit: seq<Audit>, comments: seq<Comment>, next: Option<Cursor>)

  /** The head of the audit list goes first unless a comment is newer. */
  predicate AuditFirst(audit: seq<Audit>, comments: seq<Comment>) {
    |audit| > 0 && (|comments| == 0 || audit[0].at >= comments[0].createdAt)
  }

  /** How many entries of each list the newest `n` of the merge are. */
  function Taken(audit: seq<Audit>, comments: seq<Comment>, n: nat): (r: (nat, nat))
    ensures r.0 <= |audit| && r.1 <= |comments| && r.0 + r.1 <= n
    ensures r.0 + r.1 == n || (r.0 == |audit| && r.1 == |comments|)
  {
    if n == 0 || (|audit| == 0 && |comments| == 0) then (0, 0)
    else if AuditFirst(audit, comments) then
      var (i, j) := Taken(audit[1..], comments, n - 1);
      (i + 1, j)
    else
      var (i, j) := Taken(audit, comments[1..], n - 1);
      (i, j + 1)
  }

  /** One step of the count, with the list it takes from. */
  lemma TakenStep(audit: seq<Audit>, comments: seq<Comment>, n: nat)
    requires n > 0 && (|audit| > 0 || |comments| > 0)
    ensures AuditFirst(audit, comments) ==>
              var (i, j) := Taken(audit[1..], comments, n - 1);
              Taken(audit, comments, n) == (i + 1, j)
    ensures !AuditFirst(audit, comments) ==>
              |comments| > 0 &&
              var (i, j) := Taken(audit, comments[1..], n - 1);
              Taken(audit, comments, n) == (i, j + 1)
  {
  }

  function NextCursor(audit: seq<Audit>, comments: seq<Comment>, cursor: Cursor): Cursor {
    Cursor(if |audit| > 0 then Some(audit[|audit| - 1].seqNo) else cursor.auditSeq,
           if |comments| > 0 then Some(MarkOf(comments[|comments| - 1])) else cursor.comment)
  }

  function MarkOf(c: Comment): Mark {
    Mark(c.cursorAt, c.id)
  }

  function PageOf(audit: seq<Audit>, comments: seq<Comment>, cursor: Cursor, size: nat): Page {
    var (i, j) := Taken(audit, comments, size);
    Page(audit[..i], comments[..j],
         if |audit| + |comments| > i + j then Some(NextCursor(audit[..i], comments[..j], cursor)) else None)
  }

  /** `takeActivityPage` */
  method TakeActivityPage(audit: seq<Audit>, comments: seq<Comment>, cursor: Cursor, size: nat) returns (p: Page)
    ensures p == PageOf(audit, comments, cursor, size)
  {
    hide Taken;
    var i, j := 0, 0;
    assert audit[0..] == audit && comments[0..] == comments;
    while i + j < size && (i < |audit| || j < |comments|)
      invariant i <= |audit| && j <= |comments| && i + j <= size
      invariant var (k, l) := Taken(audit[i..], comments[j..], size - i - j);
                Taken(audit, comments, size) == (i + k, j + l)
      decreases size - i - j
    {
      TakenStep(audit[i..], comments[j..], size - i - j);
      if i < |audit| && (j == |comments| || audit[i].at >= comments[j].createdAt) {
        assert audit[i..][1..] == audit[i + 1..];
        i := i + 1;
      } else {
        assert comments[j..][1..] == comments[j + 1..];
        j := j + 1;
      }
    }
    var takenAudit, takenComments := audit[..i], comments[..j];
    var more := |audit| + |comments| > i + j;
    p := Page(takenAudit, takenComments, if more then Some(NextCursor(takenAudit, takenComments, cursor)) else None);
  }

  // ----- the merge

  datatype Item = OfAudit(audit: Audit) | OfComment(comment: Comment)

  function Merge(audit: seq<Audit>, comments: seq<Comment>): seq<Item>
    decreases |audit| + |comments|
  {
    if |audit| == 0 && |comments| == 0 then []
    else if AuditFirst(audit, comments) then [OfAudit(audit[0])] + Merge(audit[1..], comments)
    else [OfComment(comments[0])] + Merge(audit, comments[1..])
  }

  lemma MergeStep(audit: seq<Audit>, comments: seq<Comment>)
    requires |audit| > 0 || |comments| > 0
    ensures AuditFirst(audit, comments) ==>
              Merge(audit, comments) == [OfAudit(audit[0])] + Merge(audit[1..], comments)
    ensures !AuditFirst(audit, comments) ==>
              |comments| > 0 && Merge(audit, comments) == [OfComment(comments[0])] + Merge(audit, comments[1..])
  {
  }

  lemma MergeNone()
    ensures Merge([], []) == []
  {
  }

  /** A page is the newest entries of the merge, and what it leaves merges to the rest. */
  lemma {:induction false} PageOfMerge(audit: seq<Audit>, comments: seq<Comment>, n: nat)
    ensures var (i, j) := Taken(audit, comments, n);
            Merge(audit, comments) == Merge(audit[..i], comments[..j]) + Merge(audit[i..], comments[j..])
    decreases n
  {
    hide Taken, Merge, AuditFirst;
    var (i, j) := Taken(audit, comments, n);
    if i + j == 0 {
      MergeNone();
      assert audit[i..] == audit && comments[j..] == comments;
      assert audit[..i] == [] && comments[..j] == [];
    } else {
      TakenStep(audit, comments, n);
      MergeStep(audit, comments);
      PrefixOrder(audit, comments, i, j);
      if AuditFirst(audit, comments) {
        PageOfMerge(audit[1..], comments, n - 1);
        MergeStep(audit[..i], comments[..j]);
        assert audit[..i][1..] == audit[1..][..i - 1] && audit[i..] == audit[1..][i - 1..];
      } else {
        PageOfMerge(audit, comments[1..], n - 1);
        MergeStep(audit[..i], comments[..j]);
        assert comments[..j][1..] == comments[1..][..j - 1] && comments[j..] == comments[1..][j - 1..];
      }
    }
  }

  /** The taken pieces start with the same entry as the whole lists. */
  lemma PrefixOrder(audit: seq<Audit>, comments: seq<Comment>, i: nat, j: nat)
    requires i <= |audit| && j <= |comments|
    ensures AuditFirst(audit, comments) && i > 0 ==> AuditFirst(audit[..i], comments[..j])
    ensures !AuditFirst(audit, comments) && j > 0 ==> !AuditFirst(audit[..i], comments[..j])
  {
  }

  function TimeOf(x: Item): int {
    match x
    case OfAudit(a) => a.at
    case OfComment(c) => c.createdAt
  }

  ghost predicate NewestFirst(items: seq<Item>) {
    forall i, j :: 0 <= i < j < |items| ==> TimeOf(items[i]) >= TimeOf(items[j])
  }

  ghost predicate Bounded(items: seq<Item>, t: int) {
    forall i :: 0 <= i < |items| ==> TimeOf(items[i]) <= t
  }

  ghost predicate AuditDescends(audit: seq<Audit>) {
    forall i, j :: 0 <= i < j < |audit| ==> audit[i].at >= audit[j].at
  }

  ghost predicate CommentsDescend(comments: seq<Comment>) {
    forall i, j :: 0 <= i < j < |comments| ==> comments[i].createdAt >= comments[j].createdAt
  }

  /** When both lists descend in time, so does everything the pages show, one after the other. */
  lemma {:induction false} MergeNewestFirst(audit: seq<Audit>, comments: seq<Comment>, t: int)
    requires AuditDescends(audit) && CommentsDescend(comments)
    requires |audit| > 0 ==> audit[0].at <= t
    requires |comments| > 0 ==> comments[0].createdAt <= t
    ensures NewestFirst(Merge(audit, comments)) && Bounded(Merge(audit, comments), t)
    decreases |audit| + |comments|
  {
    if |audit| > 0 || |comments| > 0 {
      if AuditFirst(audit, comments) {
        MergeNewestFirst(audit[1..], comments, audit[0].at);
        Prepend(OfAudit(audit[0]), Merge(audit[1..], comments), t);
      } else {
        MergeNewestFirst(audit, comments[1..], comments[0].createdAt);
        Prepend(OfComment(comments[0]), Merge(audit, comments[1..]), t);
      }
    }
  }

  lemma Prepend(x: Item, items: seq<Item>, t: int)
    requires NewestFirst(items) && Bounded(items, TimeOf(x)) && TimeOf(x) <= t
    ensures NewestFirst([x] + items) && Bounded([x] + items, t)
  {
  }

  /** At one moment the audit rows come first, whatever the lists look like. */
  ghost predicate AuditWinsTies(items: seq<Item>) {
    forall i, j :: 0 <= i < j < |items| && items[i].OfComment? && items[j].OfAudit? ==>
      TimeOf(items[i]) > TimeOf(items[j])
  }

  lemma {:induction false} MergeTies(audit: seq<Audit>, comments: seq<Comment>)
    requires AuditDescends(audit)
    ensures AuditWinsTies(Merge(audit, comments))
    ensures forall x :: x in Merge(audit, comments) && x.OfAudit? ==> x.audit in audit
    decreases |audit| + |comments|
  {
    if |audit| > 0 || |comments| > 0 {
      if AuditFirst(audit, comments) {
        MergeTies(audit[1..], comments);
      } else {
        MergeTies(audit, comments[1..]);
      }
    }
  }

  // ----- fetching behind a cursor

  predicate MarkLess(a: Mark, b: Mark) {
    Less(a.at, b.at) || (a.at == b.at && Less(a.id, b.id))
  }

  lemma MarkLessAsymmetric(a: Mark, b: Mark)
    ensures !(MarkLess(a, b) && MarkLess(b, a)) && !MarkLess(a, a)
  {
    LessAsymmetric(a.at, b.at);
    LessAsymmetric(a.id, b.id);
  }

  /** Strictly descending in what the queries order by. */
  ghost predicate AuditSorted(audit: seq<Audit>) {
    forall i, j :: 0 <= i < j < |audit| ==> audit[i].seqNo > audit[j].seqNo
  }

  ghost predicate CommentsSorted(comments: seq<Comment>) {
    forall i, j :: 0 <= i < j < |comments| ==> MarkLess(MarkOf(comments[j]), MarkOf(comments[i]))
  }

  function AuditBehind(audit: seq<Audit>, below: Option<nat>): seq<Audit> {
    if |audit| == 0 then []
    else
      var rest := AuditBehind(audit[1..], below);
      if below.None? || audit[0].seqNo < below.value then [audit[0]] + rest else rest
  }

  function CommentsBehind(comments: seq<Comment>, below: Option<Mark>): seq<Comment> {
    if |comments| == 0 then []
    else
      var rest := CommentsBehind(comments[1..], below);
      if below.None? || MarkLess(MarkOf(comments[0]), below.value) then [comments[0]] + rest else rest
  }

  function First<T>(xs: seq<T>, n: nat): seq<T> {
    if |xs| <= n then xs else xs[..n]
  }

  lemma {:induction false} AuditAll(audit: seq<Audit>)
    ensures AuditBehind(audit, None) == audit
  {
    if |audit| > 0 {
      AuditAll(audit[1..]);
    }
  }

  lemma {:induction false} AuditAllBelow(audit: seq<Audit>, n: nat)
    requires forall i :: 0 <= i < |audit| ==> audit[i].seqNo < n
    ensures AuditBehind(audit, Some(n)) == audit
  {
    if |audit| > 0 {
      AuditAllBelow(audit[1..], n);
    }
  }

  /** Below the number of a row are exactly the rows behind it. */
  lemma {:induction false} AuditSuffix(audit: seq<Audit>, k: nat)
    requires AuditSorted(audit) && k < |audit|
    ensures AuditBehind(audit, Some(audit[k].seqNo)) == audit[k + 1..]
  {
    if k == 0 {
      AuditAllBelow(audit[1..], audit[0].seqNo);
    } else {
      AuditSuffix(audit[1..], k - 1);
      assert audit[1..][k - 1] == audit[k] && audit[1..][k..] == audit[k + 1..];
    }
  }

  lemma {:induction false} CommentsAll(comments: seq<Comment>)
    ensures CommentsBehind(comments, None) == comments
  {
    if |comments| > 0 {
      CommentsAll(comments[1..]);
    }
  }

  lemma {:induction false} CommentsAllBelow(comments: seq<Comment>, m: Mark)
    requires forall i :: 0 <= i < |comments| ==> MarkLess(MarkOf(comments[i]), m)
    ensures CommentsBehind(comments, Some(m)) == comments
  {
    if |comments| > 0 {
      CommentsAllBelow(comments[1..], m);
    }
  }

  lemma {:induction false} CommentsSuffix(comments: seq<Comment>, k: nat)
    requires CommentsSorted(comments) && k < |comments|
    ensures CommentsBehind(comments, Some(MarkOf(comments[k]))) == comments[k + 1..]
  {
    hide MarkLess;
    MarkLessAsymmetric(MarkOf(comments[0]), MarkOf(comments[k]));
    if k == 0 {
      CommentsAllBelow(comments[1..], MarkOf(comments[0]));
    } else {
      CommentsSuffix(comments[1..], k - 1);
      assert comments[1..][k - 1] == comments[k] && comments[1..][k..] == comments[k + 1..];
    }
  }

  /** Fetching more rows of each list than the page holds does not change the page. */
  lemma {:induction false} FetchedIsEnough(audit: seq<Audit>, comments: seq<Comment>, n: nat, i: nat, j: nat)
    requires i <= |audit| && j <= |comments| && (i == |audit| || n <= i) && (j == |comments| || n <= j)
    ensures Taken(audit[..i], comments[..j], n) == Taken(audit, comments, n)
    decreases n
  {
    hide Taken, AuditFirst;
    if n == 0 || (|audit| == 0 && |comments| == 0) {
    } else {
      var a, c := audit[..i], comments[..j];
      TakenStep(audit, comments, n);
      TakenStep(a, c, n);
      PrefixOrder(audit, comments, i, j);
      FirstExists(audit, comments);
      if AuditFirst(audit, comments) {
        assert a[1..] == audit[1..][..i - 1];
        FetchedIsEnough(audit[1..], comments, n - 1, i - 1, j);
      } else {
        assert c[1..] == comments[1..][..j - 1];
        FetchedIsEnough(audit, comments[1..], n - 1, i, j - 1);
      }
    }
  }

  lemma FirstExists(audit: seq<Audit>, comments: seq<Comment>)
    requires |audit| > 0 || |comments| > 0
    ensures if AuditFirst(audit, comments) then |audit| > 0 else |comments| > 0
  {
  }

  /** One row more than the page holds is enough to know whether anything follows it. */
  lemma FetchedPage(audit: seq<Audit>, comments: seq<Comment>, cursor: Cursor, size: nat)
    ensures PageOf(First(audit, size + 1), First(comments, size + 1), cursor, size)
         == PageOf(audit, comments, cursor, size)
  {
    hide Taken;
    var a, c := First(audit, size + 1), First(comments, size + 1);
    assert a == audit[..|a|] && c == comments[..|c|];
    FetchedIsEnough(audit, comments, size, |a|, |c|);
    var (i, j) := Taken(audit, comments, size);
    assert a[..i] == audit[..i] && c[..j] == comments[..j];
  }

  // ----- the cursor as text

  predicate IsDigit(ch: char) {
    '0' <= ch <= '9'
  }

  predicate IsHex(ch: char) {
    IsDigit(ch) || 'a' <= ch <= 'f'
  }

  /** Decimal notation without leading zeros. */
  function Digits(n: nat): string {
    if n < 10 then [('0' as int + n) as char] else Digits(n / 10) + [('0' as int + n % 10) as char]
  }

  predicate AllDigits(s: string) {
    forall i :: 0 <= i < |s| ==> IsDigit(s[i])
  }

  function Number(s: string): nat
    requires AllDigits(s)
  {
    if s == "" then 0
    else Number(s[..|s| - 1]) * 10 + (s[|s| - 1] as int - '0' as int)
  }

  function Pow10(k: nat): nat {
    if k == 0 then 1 else 10 * Pow10(k - 1)
  }

  lemma {:induction false} NumberOfDigits(n: nat, k: nat)
    requires n < Pow10(k) && k > 0
    ensures AllDigits(Digits(n)) && Number(Digits(n)) == n
    ensures 1 <= |Digits(n)| <= k
  {
    if n < 10 {
      assert Digits(n)[..0] == "";
    } else {
      NumberOfDigits(n / 10, k - 1);
      var d := [('0' as int + n % 10) as char];
      assert (Digits(n / 10) + d)[..|Digits(n / 10)|] == Digits(n / 10);
    }
  }

  /** A fixed format: 'd' stands for a digit, 'h' for a hexadecimal digit, the rest for itself. */
  predicate Matches(s: string, format: string) {
    && |s| == |format|
    && forall i :: 0 <= i < |s| ==>
         if format[i] == 'd' then IsDigit(s[i]) else if format[i] == 'h' then IsHex(s[i]) else s[i] == format[i]
  }

  const AT_FORMAT := "dddd-dd-ddTdd:dd:dd.ddddddZ"
  const UUID_FORMAT := "hhhhhhhh-hhhh-hhhh-hhhh-hhhhhhhhhhhh"

  /** The parts of a text between occurrences of a character. */
  function SplitOn(s: string, ch: char): seq<string> {
    if ch !in s then [s]
    else if s[0] == ch then [""] + SplitOn(s[1..], ch)
    else
      var rest := SplitOn(s[1..], ch);
      if |rest| == 0 then [s] else [[s[0]] + rest[0]] + rest[1..]
  }

  lemma {:induction false} SplitTwo(a: string, b: string, ch: char)
    requires ch !in a && ch !in b
    ensures SplitOn(a + [ch] + b, ch) == [a, b]
  {
    var s := a + [ch] + b;
    assert s[|a|] == ch;
    if a == "" {
      assert s[1..] == b;
    } else {
      assert s[1..] == a[1..] + [ch] + b;
      SplitTwo(a[1..], b, ch);
      assert [a[0]] + a[1..] == a;
    }
  }

  function Encode(c: Cursor): string {
    (if c.auditSeq.Some? then Digits(c.auditSeq.value) else "-") + "~" +
    (if c.comment.Some? then c.comment.value.at + "_" + c.comment.value.id else "-")
  }

  /** Everything unclear is the first page. */
  function Parse(raw: string): Cursor {
    var parts := SplitOn(raw, '~');
    if raw == "" || |raw| > 120 || |parts| != 2 then START
    else
      var audit, comment := ParseSeq(parts[0]), ParseMark(parts[1]);
      if audit.None? || comment.None? then START else Cursor(audit.value, comment.value)
  }

  /** The number, "-" for none; nothing when the text is neither. */
  function ParseSeq(s: string): Option<Option<nat>> {
    if s == "-" then Some(None)
    else if !(1 <= |s| <= 19) || !AllDigits(s) || Number(s) > INT8_MAX then None
    else Some(Some(Number(s)))
  }

  function ParseMark(s: string): Option<Option<Mark>> {
    if s == "-" then Some(None)
    else
      var parts := SplitOn(s, '_');
      if |parts| != 2 || !Matches(parts[0], AT_FORMAT) || !Matches(parts[1], UUID_FORMAT) then None
      else Some(Some(Mark(parts[0], parts[1])))
  }

  predicate GoodMark(m: Mark) {
    Matches(m.at, AT_FORMAT) && Matches(m.id, UUID_FORMAT)
  }

  predicate GoodCursor(c: Cursor) {
    && (c.auditSeq.Some? ==> c.auditSeq.value <= INT8_MAX)
    && (c.comment.Some? ==> GoodMark(c.comment.value))
  }

  lemma SeqRoundTrip(n: nat)
    requires n <= INT8_MAX
    ensures ParseSeq(Digits(n)) == Some(Some(n)) && |Digits(n)| <= 19 && '~' !in Digits(n)
  {
    Pow19();
    NumberOfDigits(n, 19);
    assert Digits(n) != "-" by {
      assert IsDigit(Digits(n)[0]);
    }
  }

  lemma Pow19()
    ensures Pow10(19) == 10000000000000000000
  {
    assert Pow10(5) == 100000;
    assert Pow10(10) == 10000000000;
    assert Pow10(15) == 1000000000000000;
  }

  lemma MarkRoundTrip(m: Mark)
    requires GoodMark(m)
    ensures ParseMark(m.at + "_" + m.id) == Some(Some(m))
    ensures |m.at + "_" + m.id| == 64 && '~' !in m.at + "_" + m.id
  {
    assert '_' !in m.at && '~' !in m.at;
    assert '_' !in m.id && '~' !in m.id;
    SplitTwo(m.at, m.id, '_');
  }

  /** Reading the printed cursor gives the cursor back. */
  lemma CursorRoundTrip(c: Cursor)
    requires GoodCursor(c)
    ensures Parse(Encode(c)) == c
  {
    hide Digits, ParseSeq, ParseMark, SplitOn, Matches, Number;
    var audit := if c.auditSeq.Some? then Digits(c.auditSeq.value) else "-";
    var comment := if c.comment.Some? then c.comment.value.at + "_" + c.comment.value.id else "-";
    Dashes();
    if c.auditSeq.Some? {
      SeqRoundTrip(c.auditSeq.value);
    }
    if c.comment.Some? {
      MarkRoundTrip(c.comment.value);
    }
    SplitTwo(audit, comment, '~');
    assert Encode(c) == audit + ['~'] + comment;
  }

  lemma Dashes()
    ensures ParseSeq("-") == Some(None) && ParseMark("-") == Some(None)
  {
  }

  /** Whatever stands in the link, the cursor read from it is well formed. */
  lemma ParsedIsGood(raw: string)
    ensures GoodCursor(Parse(raw))
  {
    hide SplitOn, Matches, Number;
  }

  lemma {:induction false} SplitPieces(s: string, ch: char)
    ensures |SplitOn(s, ch)| > 0 && ch !in SplitOn(s, ch)[0]
    ensures |SplitOn(s, ch)| == 2 ==> s == SplitOn(s, ch)[0] + [ch] + SplitOn(s, ch)[1] && ch !in SplitOn(s, ch)[1]
    ensures |SplitOn(s, ch)| == 1 ==> s == SplitOn(s, ch)[0]
  {
    if ch in s {
      SplitPieces(s[1..], ch);
      var rest := SplitOn(s[1..], ch);
      assert s == [s[0]] + s[1..];
      if s[0] == ch {
        assert SplitOn(s, ch) == [""] + rest;
      } else {
        assert SplitOn(s, ch) == [[s[0]] + rest[0]] + rest[1..];
      }
    }
  }

  /** Year, month, day, hour, minute, second and six decimals of a time in UTC. */
  predicate Instant(s: string) {
    && |s| == 27
    && s[4] == s[7] == '-' && s[10] == 'T' && s[13] == s[16] == ':' && s[19] == '.' && s[26] == 'Z'
    && forall i :: 0 <= i < 26 && i !in {4, 7, 10, 13, 16, 19} ==> '0' <= s[i] <= '9'
  }

  /** Thirty-two lower-case hexadecimal digits in groups of 8, 4, 4, 4 and 12. */
  predicate Uuid(s: string) {
    && |s| == 36
    && s[8] == s[13] == s[18] == s[23] == '-'
    && forall i :: 0 <= i < 36 && i !in {8, 13, 18, 23} ==> '0' <= s[i] <= '9' || 'a' <= s[i] <= 'f'
  }

  lemma FormatsExactly(s: string)
    ensures Matches(s, AT_FORMAT) <==> Instant(s)
    ensures Matches(s, UUID_FORMAT) <==> Uuid(s)
  {
    if |s| == 27 {
      InstantExactly(s);
    }
    if |s| == 36 {
      UuidExactly(s);
    }
  }

  lemma InstantExactly(s: string)
    requires |s| == 27
    ensures Matches(s, AT_FORMAT) <==> Instant(s)
  {
    assert forall i :: 0 <= i < 26 && i !in {4, 7, 10, 13, 16, 19} <==> 0 <= i < 27 && AT_FORMAT[i] == 'd';
  }

  lemma UuidExactly(s: string)
    requires |s| == 36
    ensures Matches(s, UUID_FORMAT) <==> Uuid(s)
  {
    assert forall i :: 0 <= i < 36 && i !in {8, 13, 18, 23} <==> 0 <= i < 36 && UUID_FORMAT[i] == 'h';
  }

  /** One to nineteen digits of a number that fits int8, or a dash for none. */
  predicate SpellsSeq(s: string, seqNo: Option<nat>) {
    match seqNo
    case None => s == "-"
    case Some(n) =>
      && 1 <= |s| <= 19 && (forall i :: 0 <= i < |s| ==> '0' <= s[i] <= '9')
      && AllDigits(s) && Number(s) == n <= 0x7fff_ffff_ffff_ffff
  }

  predicate SpellsMark(s: string, mark: Option<Mark>) {
    match mark
    case None => s == "-"
    case Some(m) => s == m.at + "_" + m.id && Instant(m.at) && Uuid(m.id)
  }

  lemma SeqExactly(s: string, seqNo: Option<nat>)
    ensures ParseSeq(s) == Some(seqNo) <==> SpellsSeq(s, seqNo)
    ensures SpellsSeq(s, seqNo) ==> '~' !in s
  {
  }

  lemma NoSeparators(m: Mark)
    requires Instant(m.at) && Uuid(m.id)
    ensures '_' !in m.at && '~' !in m.at && '_' !in m.id && '~' !in m.id
  {
    assert forall i :: 0 <= i < |m.at| ==> '0' <= m.at[i] <= '9' || m.at[i] in {'-', 'T', ':', '.', 'Z'};
    assert forall i :: 0 <= i < |m.id| ==> '0' <= m.id[i] <= '9' || 'a' <= m.id[i] <= 'f' || m.id[i] == '-';
  }

  lemma MarkExactly(s: string, mark: Option<Mark>)
    ensures ParseMark(s) == Some(mark) <==> SpellsMark(s, mark)
    ensures SpellsMark(s, mark) ==> '~' !in s
  {
    hide Matches, SplitOn;
    SplitPieces(s, '_');
    if |SplitOn(s, '_')| == 2 {
      FormatsExactly(SplitOn(s, '_')[0]);
      FormatsExactly(SplitOn(s, '_')[1]);
    }
    if mark.Some? && SpellsMark(s, mark) {
      FormatsExactly(mark.value.at);
      FormatsExactly(mark.value.id);
      NoSeparators(mark.value);
      SplitTwo(mark.value.at, mark.value.id, '_');
    }
  }

  /**
   What the link must look like for each cursor but the start: at most 120 characters, a number,
   a tilde and a mark; everything else is the start.
   */
  lemma ParsedExactly(raw: string, c: Cursor)
    requires c != START
    ensures Parse(raw) == c <==>
              |raw| <= 120 && exists a, b :: raw == a + "~" + b && SpellsSeq(a, c.auditSeq) && SpellsMark(b, c.comment)
  {
    hide ParseSeq, ParseMark, SplitOn, SpellsSeq, SpellsMark;
    SplitPieces(raw, '~');
    if |SplitOn(raw, '~')| == 2 {
      SeqExactly(SplitOn(raw, '~')[0], c.auditSeq);
      MarkExactly(SplitOn(raw, '~')[1], c.comment);
    }
    forall a, b | raw == a + "~" + b && SpellsSeq(a, c.auditSeq) && SpellsMark(b, c.comment)
      ensures SplitOn(raw, '~') == [a, b] && ParseSeq(a) == Some(c.auditSeq) && ParseMark(b) == Some(c.comment)
    {
      SeqExactly(a, c.auditSeq);
      MarkExactly(b, c.comment);
      SplitTwo(a, b, '~');
    }
  }

  // ----- paging through everything

  /** Behind the last row of a page are exactly the rows the page left. */
  lemma AuditAdvance(audit: seq<Audit>, done: nat, i: nat, below: Option<nat>)
    requires AuditSorted(audit) && done + i <= |audit| && AuditBehind(audit, below) == audit[done..]
    ensures AuditBehind(audit, if i > 0 then Some(audit[done + i - 1].seqNo) else below) == audit[done + i..]
  {
    if i > 0 {
      AuditSuffix(audit, done + i - 1);
    }
  }

  lemma CommentsAdvance(comments: seq<Comment>, done: nat, j: nat, below: Option<Mark>)
    requires CommentsSorted(comments) && done + j <= |comments| && CommentsBehind(comments, below) == comments[done..]
    ensures CommentsBehind(comments, if j > 0 then Some(MarkOf(comments[done + j - 1])) else below)
         == comments[done + j..]
  {
    if j > 0 {
      CommentsSuffix(comments, done + j - 1);
    }
  }

  /** One request: fetch up to size + 1 rows of each list behind the cursor, and take a page. */
  method Request(audit: seq<Audit>, comments: seq<Comment>, cursor: Cursor, size: nat) returns (p: Page)
    ensures p == PageOf(AuditBehind(audit, cursor.auditSeq), CommentsBehind(comments, cursor.comment), cursor, size)
  {
    hide PageOf;
    var a, c := AuditBehind(audit, cursor.auditSeq), CommentsBehind(comments, cursor.comment);
    FetchedPage(a, c, cursor, size);
    p := TakeActivityPage(First(a, size + 1), First(c, size + 1), cursor, size);
  }

  /** What the pages hold of each list, and what they show, one after the other. */
  function AuditOf(pages: seq<Page>): seq<Audit> {
    if |pages| == 0 then [] else AuditOf(pages[..|pages| - 1]) + pages[|pages| - 1].audit
  }

  function CommentsOf(pages: seq<Page>): seq<Comment> {
    if |pages| == 0 then [] else CommentsOf(pages[..|pages| - 1]) + pages[|pages| - 1].comments
  }

  function Shown(pages: seq<Page>): seq<Item> {
    if |pages| == 0 then []
    else Shown(pages[..|pages| - 1]) + Merge(pages[|pages| - 1].audit, pages[|pages| - 1].comments)
  }

  lemma OneMore(pages: seq<Page>, p: Page)
    ensures AuditOf(pages + [p]) == AuditOf(pages) + p.audit
    ensures CommentsOf(pages + [p]) == CommentsOf(pages) + p.comments
    ensures Shown(pages + [p]) == Shown(pages) + Merge(p.audit, p.comments)
  {
    hide Merge;
    assert (pages + [p])[..|pages|] == pages;
  }

  /** The cursor stands behind the first `i` rows and the first `j` comments. */
  ghost predicate Standing(audit: seq<Audit>, comments: seq<Comment>, i: nat, j: nat, cursor: Cursor) {
    && i <= |audit| && j <= |comments| && GoodCursor(cursor)
    && AuditBehind(audit, cursor.auditSeq) == audit[i..]
    && CommentsBehind(comments, cursor.comment) == comments[j..]
  }

  /** Rows as the database holds them: numbers within int8, marks in their fixed formats. */
  ghost predicate Stored(audit: seq<Audit>, comments: seq<Comment>) {
    && AuditSorted(audit) && CommentsSorted(comments)
    && (forall k :: 0 <= k < |audit| ==> audit[k].seqNo <= INT8_MAX)
    && (forall k :: 0 <= k < |comments| ==> GoodMark(MarkOf(comments[k])))
  }

  lemma PagePieces(a: seq<Audit>, c: seq<Comment>, cursor: Cursor, size: nat)
    ensures var p := PageOf(a, c, cursor, size);
            var k, l := |p.audit|, |p.comments|;
            && k <= |a| && l <= |c| && k + l <= size && p.audit == a[..k] && p.comments == c[..l]
            && Merge(a, c) == Merge(p.audit, p.comments) + Merge(a[k..], c[l..])
            && (p.next.None? <==> k == |a| && l == |c|)
            && (p.next.Some? ==> k + l == size && p.next.value == NextCursor(p.audit, p.comments, cursor))
  {
    hide Taken, Merge, NextCursor;
    PageOfMerge(a, c, size);
  }

  /** The cursor behind a page stands where the page ends. */
  lemma CursorAdvances(audit: seq<Audit>, comments: seq<Comment>, i: nat, j: nat, k: nat, l: nat, cursor: Cursor)
    requires Stored(audit, comments) && Standing(audit, comments, i, j, cursor)
    requires i + k <= |audit| && j + l <= |comments|
    ensures Standing(audit, comments, i + k, j + l, NextCursor(audit[i..][..k], comments[j..][..l], cursor))
  {
    hide AuditBehind, CommentsBehind, AuditSorted, CommentsSorted, Matches, GoodMark;
    AuditAdvance(audit, i, k, cursor.auditSeq);
    CommentsAdvance(comments, j, l, cursor.comment);
    assert k > 0 ==> audit[i..][..k][k - 1] == audit[i + k - 1];
    assert l > 0 ==> comments[j..][..l][l - 1] == comments[j + l - 1];
  }

  /** Together with what is still to come, the pages so far are both lists and their merge. */
  ghost predicate Progress(audit: seq<Audit>, comments: seq<Comment>, pages: seq<Page>, i: nat, j: nat) {
    && i <= |audit| && j <= |comments|
    && AuditOf(pages) + audit[i..] == audit && CommentsOf(pages) + comments[j..] == comments
    && Shown(pages) + Merge(audit[i..], comments[j..]) == Merge(audit, comments)
  }

  lemma PageProgress(audit: seq<Audit>, comments: seq<Comment>, pages: seq<Page>, i: nat, j: nat, cursor: Cursor,
                     size: nat)
    requires Progress(audit, comments, pages, i, j)
    ensures var p := PageOf(audit[i..], comments[j..], cursor, size);
            Progress(audit, comments, pages + [p], i + |p.audit|, j + |p.comments|)
  {
    hide Merge, PageOf, NextCursor, AuditOf, CommentsOf, Shown;
    var a, c := audit[i..], comments[j..];
    var p := PageOf(a, c, cursor, size);
    PagePieces(a, c, cursor, size);
    OneMore(pages, p);
    Advanced(audit, AuditOf(pages), i, |p.audit|);
    Advanced(comments, CommentsOf(pages), j, |p.comments|);
    Associate(Shown(pages), Merge(p.audit, p.comments), Merge(a[|p.audit|..], c[|p.comments|..]));
  }

  lemma Associate<T>(a: seq<T>, b: seq<T>, c: seq<T>)
    ensures a + (b + c) == a + b + c
  {
  }

  lemma Advanced<T>(all: seq<T>, shown: seq<T>, i: nat, k: nat)
    requires i + k <= |all| && shown + all[i..] == all
    ensures all[i..][k..] == all[i + k..] && shown + all[i..][..k] + all[i + k..] == all
  {
  }

  lemma ProgressEnds(audit: seq<Audit>, comments: seq<Comment>, pages: seq<Page>)
    requires Progress(audit, comments, pages, |audit|, |comments|)
    ensures AuditOf(pages) == audit && CommentsOf(pages) == comments && Shown(pages) == Merge(audit, comments)
  {
    MergeNone();
  }

  lemma PageMoves(audit: seq<Audit>, comments: seq<Comment>, i: nat, j: nat, cursor: Cursor, size: nat)
    requires Stored(audit, comments) && Standing(audit, comments, i, j, cursor)
    ensures var p := PageOf(audit[i..], comments[j..], cursor, size);
            var i', j' := i + |p.audit|, j + |p.comments|;
            && i' <= |audit| && j' <= |comments| && |p.audit| + |p.comments| <= size
            && (p.next.None? <==> i' == |audit| && j' == |comments|)
            && (p.next.Some? ==>
                  && |p.audit| + |p.comments| == size
                  && GoodCursor(p.next.value) && Standing(audit, comments, i', j', p.next.value))
  {
    hide Merge, PageOf, NextCursor, Stored, AuditBehind, CommentsBehind;
    var p := PageOf(audit[i..], comments[j..], cursor, size);
    PagePieces(audit[i..], comments[j..], cursor, size);
    CursorAdvances(audit, comments, i, j, |p.audit|, |p.comments|, cursor);
  }

  /** How many pages a number of entries fills; nothing at all still is one page. */
  function PagesFor(total: nat, size: nat): nat
    requires size > 0
  {
    if total <= size then 1 else 1 + PagesFor(total - size, size)
  }

  lemma PagesStep(total: nat, size: nat)
    requires size > 0
    ensures PagesFor(total, size) == if total <= size then 1 else 1 + PagesFor(total - size, size)
  {
  }

  /** As many pages as are needed, and not one more. */
  lemma {:induction false} PagesEnough(total: nat, size: nat)
    requires size > 0
    ensures total <= size * PagesFor(total, size)
    ensures total > 0 ==> size * (PagesFor(total, size) - 1) < total
  {
    if total > size {
      var n := PagesFor(total - size, size);
      PagesEnough(total - size, size);
      assert size * (n + 1) == size * n + size && size * n == size * (n - 1) + size;
    }
  }

  /**
   Following the cursors from the start, each printed into the link and read back, ends and
   delivers every audit row and every comment exactly once; the pages are the merge of both
   lists cut into pieces of `size`.
   */
  method ReadAll(audit: seq<Audit>, comments: seq<Comment>, size: nat) returns (pages: seq<Page>)
    requires Stored(audit, comments) && size > 0
    ensures AuditOf(pages) == audit && CommentsOf(pages) == comments
    ensures Shown(pages) == Merge(audit, comments)
    ensures forall k :: 0 <= k < |pages| - 1 ==> |pages[k].audit| + |pages[k].comments| == size
    ensures |pages| == PagesFor(|audit| + |comments|, size)
  {
    hide *;
    pages := [];
    var cursor, finished := START, false;
    ghost var i: nat, j: nat := 0, 0;
    StartsAtTheTop(audit, comments);
    while !finished
      invariant i <= |audit| && j <= |comments| && Progress(audit, comments, pages, i, j)
      invariant if finished then i == |audit| && j == |comments| else Standing(audit, comments, i, j, cursor)
      invariant var full := |pages| - if finished then 1 else 0;
                && full >= 0 && forall k :: 0 <= k < full ==> |pages[k].audit| + |pages[k].comments| == size
      invariant var left := if finished then 0 else PagesFor(|audit| - i + |comments| - j, size);
                |pages| + left == PagesFor(|audit| + |comments|, size)
      decreases !finished, |audit| - i + |comments| - j
    {
      StandingFetches(audit, comments, i, j, cursor);
      PageProgress(audit, comments, pages, i, j, cursor, size);
      PageMoves(audit, comments, i, j, cursor, size);
      var p := Request(audit, comments, cursor, size);
      PagesStep(|audit| - i + |comments| - j, size);
      i, j := i + |p.audit|, j + |p.comments|;
      pages := pages + [p];
      if p.next.None? {
        finished := true;
      } else {
        CursorRoundTrip(p.next.value);
        cursor := Parse(Encode(p.next.value));
      }
    }
    ProgressEnds(audit, comments, pages);
  }

  lemma StartsAtTheTop(audit: seq<Audit>, comments: seq<Comment>)
    ensures Standing(audit, comments, 0, 0, START) && Progress(audit, comments, [], 0, 0)
  {
    hide Merge;
    AuditAll(audit);
    CommentsAll(comments);
    assert audit[0..] == audit && comments[0..] == comments;
  }

  lemma StandingFetches(audit: seq<Audit>, comments: seq<Comment>, i: nat, j: nat, cursor: Cursor)
    requires Standing(audit, comments, i, j, cursor)
    ensures i <= |audit| && j <= |comments|
    ensures AuditBehind(audit, cursor.auditSeq) == audit[i..]
    ensures CommentsBehind(comments, cursor.comment) == comments[j..]
  {
  }
}
