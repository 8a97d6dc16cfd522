/** The multi-pass k-way merge of internal/services/dynamodb/data.go. */
module ExternalMerge {
  import opened ByteStrings
  import opened Sorting
  import opened Heaps
  import opened Lines
  import opened Sequences
  import opened Wrappers

  const FAN_IN: nat := 64
  const SCAN_LIMIT: nat := 2_097_152

  /** The run files of a capture's work directory. */
  datatype File = PageRun(page: nat) | MergeRun(pass: nat, index: nat) | EmptyRun | CohortRun

  /** One heap entry: the next line of the scanner number `index`. */
  datatype HeapLine = HeapLine(line: Bytes, index: nat)

  predicate LineLe(a: HeapLine, b: HeapLine) {
    Le(a.line, b.line)
  }

  function LinesOf(s: seq<HeapLine>): seq<Bytes> {
    if s == [] then [] else [s[0].line] + LinesOf(s[1..])
  }

  /** All rows of all runs, each with the number of its run from `from` on. */
  function Tagged(runs: seq<seq<Bytes>>, from: nat): multiset<HeapLine> {
    if runs == [] then multiset{} else multiset(Tag(runs[0], from)) + Tagged(runs[1..], from + 1)
  }

  function Tag(rows: seq<Bytes>, index: nat): (r: seq<HeapLine>)
    ensures |r| == |rows|
  {
    seq(|rows|, k requires 0 <= k < |rows| => HeapLine(rows[k], index))
  }

  /** What writeRun leaves in a file: sorted canonical documents, one a line. */
  ghost predicate IsRun(rows: seq<Bytes>) {
    Sorted(Le, rows) && forall r | r in rows :: IsDocument(r)
  }

  /** Canonical JSON has no raw newline and ends in a brace. */
  predicate IsDocument(row: Bytes) {
    NEWLINE !in row && (row != [] ==> row[|row| - 1] != CARRIAGE_RETURN)
  }

  predicate Short(row: Bytes) {
    |row| < SCAN_LIMIT
  }

  predicate RunShort(rows: seq<Bytes>) {
    forall r | r in rows :: Short(r)
  }

  predicate AllShort(runs: seq<seq<Bytes>>) {
    forall i | 0 <= i < |runs| :: RunShort(runs[i])
  }

  // --------------------------------------------------------- order and tags

  lemma LineOrder()
    ensures TotalPreorder(LineLe)
  {
    forall a: HeapLine, b: HeapLine ensures LineLe(a, b) || LineLe(b, a) {
      LeTotal(a.line, b.line);
    }
    forall a: HeapLine, b: HeapLine, c: HeapLine | LineLe(a, b) && LineLe(b, c) ensures LineLe(a, c) {
      LeTransitive(a.line, b.line, c.line);
    }
  }

  lemma {:induction false} LinesOfSplit(a: seq<HeapLine>, b: seq<HeapLine>)
    ensures LinesOf(a + b) == LinesOf(a) + LinesOf(b)
  {
    if a == [] {
      assert a + b == b;
    } else {
      assert (a + b)[1..] == a[1..] + b;
      LinesOfSplit(a[1..], b);
    }
  }

  lemma {:induction false} LinesOfPermutation(a: seq<HeapLine>, b: seq<HeapLine>)
    requires multiset(a) == multiset(b)
    ensures multiset(LinesOf(a)) == multiset(LinesOf(b))
  {
    if a == [] {
      assert |multiset(b)| == 0;
    } else {
      var i := PermutationHead(a, b);
      LinesOfPermutation(a[1..], Without(b, i));
      LinesOfSplit(b[..i], b[i + 1..]);
      LinesOfSplit(b[..i], b[i..]);
      assert b == b[..i] + b[i..] && b[i..][1..] == b[i + 1..];
      InsertAnywhere(a[0].line, LinesOf(a[1..]), LinesOf(b[..i]), LinesOf(b[i + 1..]));
    }
  }

  lemma {:induction false} LinesOfTag(rows: seq<Bytes>, index: nat)
    ensures LinesOf(Tag(rows, index)) == rows
  {
    if rows != [] {
      assert Tag(rows, index)[1..] == Tag(rows[1..], index);
      LinesOfTag(rows[1..], index);
    }
  }

  /** Whatever sequence holds exactly the tagged rows, its lines are the rows. */
  lemma {:induction false} LinesOfTagged(runs: seq<seq<Bytes>>, from: nat, s: seq<HeapLine>)
    requires multiset(s) == Tagged(runs, from)
    ensures multiset(LinesOf(s)) == multiset(Flatten(runs))
  {
    var all := TaggedSeq(runs, from);
    TaggedSeqLines(runs, from);
    LinesOfPermutation(s, all);
  }

  function TaggedSeq(runs: seq<seq<Bytes>>, from: nat): seq<HeapLine> {
    if runs == [] then [] else Tag(runs[0], from) + TaggedSeq(runs[1..], from + 1)
  }

  lemma {:induction false} TaggedSeqLines(runs: seq<seq<Bytes>>, from: nat)
    ensures LinesOf(TaggedSeq(runs, from)) == Flatten(runs)
    ensures multiset(TaggedSeq(runs, from)) == Tagged(runs, from)
  {
    if runs != [] {
      LinesOfTag(runs[0], from);
      TaggedSeqLines(runs[1..], from + 1);
      LinesOfSplit(Tag(runs[0], from), TaggedSeq(runs[1..], from + 1));
    }
  }

  lemma {:induction false} TagCount(rows: seq<Bytes>, index: nat, r: Bytes, i: nat)
    ensures multiset(Tag(rows, index))[HeapLine(r, i)] == if i == index then multiset(rows)[r] else 0
  {
    if rows != [] {
      TagCount(rows[1..], index, r, i);
      assert Tag(rows, index) == [HeapLine(rows[0], index)] + Tag(rows[1..], index);
      assert rows == [rows[0]] + rows[1..];
    }
  }

  lemma {:induction false} TaggedCount(runs: seq<seq<Bytes>>, from: nat, r: Bytes, i: nat)
    ensures Tagged(runs, from)[HeapLine(r, i)] ==
            if from <= i < from + |runs| then multiset(runs[i - from])[r] else 0
  {
    if runs != [] {
      TagCount(runs[0], from, r, i);
      TaggedCount(runs[1..], from + 1, r, i);
      var first, others := multiset(Tag(runs[0], from)), Tagged(runs[1..], from + 1);
      assert Tagged(runs, from) == first + others;
      assert (first + others)[HeapLine(r, i)] == first[HeapLine(r, i)] + others[HeapLine(r, i)];
      if from < i < from + |runs| {
        assert runs[1..][i - (from + 1)] == runs[i - from];
      }
    }
  }

  // ------------------------------------------------------------ one group

  /** The heap of mergeGroup when the first n scanners have been started: `rests`
      are the rows not delivered yet, and each of these scanners that has rows
      left is represented in the heap by a line before them. */
  ghost predicate Delivered(heap: seq<HeapLine>, rests: seq<seq<Bytes>>, n: nat) {
    && IsHeap(LineLe, heap) && n <= |rests|
    && (forall x | x in heap :: x.index < n && forall r | r in rests[x.index] :: Le(x.line, r))
    && (forall i | 0 <= i < n && rests[i] != [] :: Represents(heap, i))
  }

  ghost predicate Represents(heap: seq<HeapLine>, i: nat) {
    exists x :: x in heap && x.index == i
  }

  ghost predicate WrittenBefore(done: seq<HeapLine>, heap: seq<HeapLine>) {
    Sorted(LineLe, done) && forall d, x | d in done && x in heap :: LineLe(d, x)
  }

  /** Every row of every run is written, in the heap, or not delivered yet. */
  ghost predicate Accounted(done: seq<HeapLine>, heap: seq<HeapLine>, rests: seq<seq<Bytes>>, rows: seq<seq<Bytes>>) {
    && |rests| == |rows|
    && (forall r, i: nat {:trigger HeapLine(r, i)} ::
         multiset(done)[HeapLine(r, i)] + multiset(heap)[HeapLine(r, i)] + Count(rests, i, r) == Count(rows, i, r))
  }

  /** How often the row r occurs in the run number i. */
  function Count(runs: seq<seq<Bytes>>, i: nat, r: Bytes): nat {
    if i < |runs| then multiset(runs[i])[r] else 0
  }

  method PushLine(heap: seq<HeapLine>, x: HeapLine) returns (r: seq<HeapLine>)
    requires IsHeap(LineLe, heap)
    ensures IsHeap(LineLe, r) && multiset(r) == multiset(heap) + multiset{x}
  {
    LineOrder();
    r := Push(LineLe, heap, x);
  }

  method PopLine(heap: seq<HeapLine>) returns (x: HeapLine, r: seq<HeapLine>)
    requires IsHeap(LineLe, heap) && heap != []
    ensures IsHeap(LineLe, r) && multiset(heap) == multiset(r) + multiset{x}
    ensures forall y | y in heap :: LineLe(x, y)
  {
    LineOrder();
    x, r := Pop(LineLe, heap);
  }

  lemma Members(a: seq<HeapLine>, b: seq<HeapLine>, x: HeapLine)
    requires multiset(a) == multiset(b) + multiset{x}
    ensures forall y :: y in a <==> y in b || y == x
    ensures |a| == |b| + 1
  {
    assert |a| == |multiset(a)| && |b| == |multiset(b)|;
    forall y ensures y in a <==> y in b || y == x {
      assert y in a <==> y in multiset(a);
      assert y in b <==> y in multiset(b);
    }
  }

  /** Delivering the next row of run i to a heap that need not represent it. */
  lemma DeliverNext(heap: seq<HeapLine>, pushed: seq<HeapLine>, rests: seq<seq<Bytes>>, i: nat, n: nat)
    requires i < n <= |rests| && rests[i] != [] && Sorted(Le, rests[i])
    requires IsHeap(LineLe, pushed) && multiset(pushed) == multiset(heap) + multiset{HeapLine(rests[i][0], i)}
    requires forall x | x in heap :: x.index < n && forall r | r in rests[x.index] :: Le(x.line, r)
    requires forall j | 0 <= j < n && j != i && rests[j] != [] :: Represents(heap, j)
    ensures Delivered(pushed, rests[i := rests[i][1..]], n)
  {
    var head := HeapLine(rests[i][0], i);
    var after := rests[i := rests[i][1..]];
    Members(pushed, heap, head);
    forall x, r | x in pushed && r in after[x.index] ensures Le(x.line, r) {
      if x in heap {
        assert r in rests[x.index];
      } else {
        var k :| 0 <= k < |after[i]| && after[i][k] == r;
        assert rests[i][k + 1] == r;
      }
    }
    forall j | 0 <= j < n && after[j] != [] ensures Represents(pushed, j) {
      if j == i {
        assert head in pushed;
      } else {
        assert Represents(heap, j);
        var x :| x in heap && x.index == j;
        assert x in pushed;
      }
    }
  }

  /** What is left of the scanned files, row by row. */
  ghost predicate Scanning(scans: seq<Bytes>, rests: seq<seq<Bytes>>, rows: seq<seq<Bytes>>) {
    && |scans| == |rests| == |rows|
    && (forall i | 0 <= i < |rests| :: scans[i] == Text(rests[i]) && IsRun(rests[i]))
    && (forall i, r | 0 <= i < |rests| && r in rests[i] :: r in rows[i])
  }

  lemma ScanNext(scans: seq<Bytes>, rests: seq<seq<Bytes>>, rows: seq<seq<Bytes>>, i: nat)
    requires Scanning(scans, rests, rows) && i < |rests| && rests[i] != []
    ensures Scanning(scans[i := Text(rests[i][1..])], rests[i := rests[i][1..]], rows)
  {
    RunTail(rests[i]);
    var after := rests[i := rests[i][1..]];
    forall j, r | 0 <= j < |after| && r in after[j] ensures r in rows[j] {
      assert r in rests[j];
    }
  }

  lemma CountTake(rests: seq<seq<Bytes>>, i: nat, r: Bytes, j: nat)
    requires i < |rests| && rests[i] != []
    ensures Count(rests, j, r) ==
            Count(rests[i := rests[i][1..]], j, r) + if j == i && r == rests[i][0] then 1 else 0
  {
    assert rests[i] == [rests[i][0]] + rests[i][1..];
  }

  lemma AccountPush(done: seq<HeapLine>, heap: seq<HeapLine>, rests: seq<seq<Bytes>>, rows: seq<seq<Bytes>>,
                    i: nat, pushed: seq<HeapLine>)
    requires Accounted(done, heap, rests, rows) && i < |rests| && rests[i] != []
    requires multiset(pushed) == multiset(heap) + multiset{HeapLine(rests[i][0], i)}
    ensures Accounted(done, pushed, rests[i := rests[i][1..]], rows)
  {
    var after := rests[i := rests[i][1..]];
    forall r, j: nat
      ensures multiset(done)[HeapLine(r, j)] + multiset(pushed)[HeapLine(r, j)] + Count(after, j, r)
              == Count(rows, j, r)
    {
      CountTake(rests, i, r, j);
    }
  }

  lemma AccountPop(done: seq<HeapLine>, heap: seq<HeapLine>, rests: seq<seq<Bytes>>, rows: seq<seq<Bytes>>,
                   x: HeapLine, popped: seq<HeapLine>)
    requires Accounted(done, heap, rests, rows) && multiset(heap) == multiset(popped) + multiset{x}
    ensures Accounted(done + [x], popped, rests, rows)
  {
    assert multiset(done + [x]) == multiset(done) + multiset{x};
  }

  /** Popping the least line keeps the output sorted and before the heap. */
  lemma WriteLeast(done: seq<HeapLine>, heap: seq<HeapLine>, x: HeapLine, popped: seq<HeapLine>)
    requires WrittenBefore(done, heap) && multiset(heap) == multiset(popped) + multiset{x}
    requires forall y | y in heap :: LineLe(x, y)
    ensures WrittenBefore(done + [x], popped)
  {
    Members(heap, popped, x);
    assert x in heap;
    forall d, y | d in done + [x] && y in popped ensures LineLe(d, y) {
      assert d in done || d == x;
      assert y in heap;
    }
    forall i, j | 0 <= i < j < |done + [x]| ensures LineLe((done + [x])[i], (done + [x])[j]) {
      if j == |done| {
        assert done[i] in done;
      }
    }
  }

  lemma {:induction false} LinesOfAt(s: seq<HeapLine>, k: nat)
    requires k < |s|
    ensures |LinesOf(s)| == |s| && LinesOf(s)[k] == s[k].line
  {
    if |s| > 1 {
      LinesOfAt(s[1..], if k == 0 then 0 else k - 1);
    }
  }

  lemma LinesOfSorted(s: seq<HeapLine>)
    requires Sorted(LineLe, s)
    ensures Sorted(Le, LinesOf(s)) && |LinesOf(s)| == |s|
  {
    if s != [] { LinesOfAt(s, 0); }
    forall i, j | 0 <= i < j < |LinesOf(s)| ensures Le(LinesOf(s)[i], LinesOf(s)[j]) {
      LinesOfAt(s, i);
      LinesOfAt(s, j);
      assert LineLe(s[i], s[j]);
    }
  }

  // ------------------------------------------------------- the work directory

  /** The files `paths` hold the runs `rows`. */
  ghost predicate HoldsRuns(files: map<File, Bytes>, paths: seq<File>, rows: seq<seq<Bytes>>) {
    && |paths| == |rows|
    && forall i | 0 <= i < |paths| :: paths[i] in files && files[paths[i]] == Text(rows[i]) && IsRun(rows[i])
  }

  /** Both maps agree everywhere except perhaps at `f`. */
  ghost predicate SameExcept(before: map<File, Bytes>, after: map<File, Bytes>, f: File) {
    forall g | g != f :: (g in before <==> g in after) && (g in before ==> after[g] == before[g])
  }

  lemma RunTail(rows: seq<Bytes>)
    requires rows != [] && IsRun(rows)
    ensures IsRun(rows[1..]) && NEWLINE !in rows[0]
    ensures Scannable(SCAN_LIMIT, rows[0]) <==> Short(rows[0])
  {
    forall r | r in rows[1..] ensures r in rows {}
    assert rows[0] in rows;
  }

  /** What Scan delivers on the remaining text of a run. */
  lemma ScanRun(rows: seq<Bytes>)
    requires IsRun(rows)
    ensures Scan(SCAN_LIMIT, Text(rows)) ==
            if rows == [] then Eof
            else if Short(rows[0]) then Token(rows[0], Text(rows[1..]))
            else TooLong
  {
    if rows != [] {
      RunTail(rows);
      ReadText(rows);
      if Short(rows[0]) {
        ScanText(SCAN_LIMIT, rows);
      } else {
        assert Chomp(rows[0] + [NEWLINE]) == rows[0];
      }
    }
  }

  /** mergeGroup between two lines, or while the first n runs are open. */
  ghost predicate Merging(scans: seq<Bytes>, heap: seq<HeapLine>, rests: seq<seq<Bytes>>, n: nat,
                          done: seq<HeapLine>, rows: seq<seq<Bytes>>) {
    && Scanning(scans, rests, rows)
    && Delivered(heap, rests, n)
    && WrittenBefore(done, heap)
    && Accounted(done, heap, rests, rows)
    && (forall x | x in heap :: Short(x.line))
    && (forall d | d in done :: Short(d.line))
  }

  lemma StepEof(scans: seq<Bytes>, heap: seq<HeapLine>, rests: seq<seq<Bytes>>, done: seq<HeapLine>,
                rows: seq<seq<Bytes>>, x: HeapLine, popped: seq<HeapLine>)
    requires Merging(scans, heap, rests, |rests|, done, rows)
    requires IsHeap(LineLe, popped) && multiset(heap) == multiset(popped) + multiset{x}
    requires forall y | y in heap :: LineLe(x, y)
    requires x.index < |rests| && rests[x.index] == []
    ensures Merging(scans, popped, rests, |rests|, done + [x], rows)
  {
    Members(heap, popped, x);
    assert x in heap;
    WriteLeast(done, heap, x, popped);
    AccountPop(done, heap, rests, rows, x, popped);
    OthersRepresented(heap, popped, rests, x);
  }

  lemma OthersRepresented(heap: seq<HeapLine>, popped: seq<HeapLine>, rests: seq<seq<Bytes>>, x: HeapLine)
    requires Delivered(heap, rests, |rests|)
    requires forall y :: y in heap <==> y in popped || y == x
    ensures forall j | 0 <= j < |rests| && j != x.index && rests[j] != [] :: Represents(popped, j)
  {
    forall j | 0 <= j < |rests| && j != x.index && rests[j] != [] ensures Represents(popped, j) {
      assert Represents(heap, j);
      var y :| y in heap && y.index == j;
      assert y in popped;
    }
  }

  lemma StepToken(scans: seq<Bytes>, heap: seq<HeapLine>, rests: seq<seq<Bytes>>, done: seq<HeapLine>,
                  rows: seq<seq<Bytes>>, x: HeapLine, popped: seq<HeapLine>, pushed: seq<HeapLine>)
    requires Merging(scans, heap, rests, |rests|, done, rows)
    requires multiset(heap) == multiset(popped) + multiset{x}
    requires forall y | y in heap :: LineLe(x, y)
    requires x.index < |rests| && rests[x.index] != [] && Short(rests[x.index][0])
    requires IsHeap(LineLe, pushed)
    requires multiset(pushed) == multiset(popped) + multiset{HeapLine(rests[x.index][0], x.index)}
    ensures Merging(scans[x.index := Text(rests[x.index][1..])], pushed,
                    rests[x.index := rests[x.index][1..]], |rests|, done + [x], rows)
  {
    var i := x.index;
    var head := HeapLine(rests[i][0], i);
    Members(heap, popped, x);
    Members(pushed, popped, head);
    assert x in heap;
    assert LineLe(x, head) by { assert rests[i][0] in rests[i]; }
    OthersRepresented(heap, popped, rests, x);
    ScanNext(scans, rests, rows, i);
    DeliverNext(popped, pushed, rests, i, |rests|);
    WriteLeast(done, heap, x, popped);
    WrittenBeforePush(done, heap, x, popped, pushed, head);
    AccountPop(done, heap, rests, rows, x, popped);
    AccountPush(done + [x], popped, rests, rows, i, pushed);
  }

  lemma WrittenBeforePush(done: seq<HeapLine>, heap: seq<HeapLine>, x: HeapLine, popped: seq<HeapLine>,
                          pushed: seq<HeapLine>, head: HeapLine)
    requires WrittenBefore(done, heap) && WrittenBefore(done + [x], popped) && x in heap
    requires forall y :: y in pushed <==> y in popped || y == head
    requires LineLe(x, head)
    ensures WrittenBefore(done + [x], pushed)
  {
    forall d | d in done + [x] ensures LineLe(d, head) {
      if d in done {
        LeTransitive(d.line, x.line, head.line);
      }
    }
  }

  lemma StepOpen(scans: seq<Bytes>, heap: seq<HeapLine>, rests: seq<seq<Bytes>>, i: nat,
                 rows: seq<seq<Bytes>>, pushed: seq<HeapLine>)
    requires Merging(scans, heap, rests, i, [], rows)
    requires i < |rests| && rests[i] != [] && Short(rests[i][0])
    requires IsHeap(LineLe, pushed) && multiset(pushed) == multiset(heap) + multiset{HeapLine(rests[i][0], i)}
    ensures Merging(scans[i := Text(rests[i][1..])], pushed, rests[i := rests[i][1..]], i + 1, [], rows)
  {
    Members(pushed, heap, HeapLine(rests[i][0], i));
    ScanNext(scans, rests, rows, i);
    DeliverNext(heap, pushed, rests, i, i + 1);
    AccountPush([], heap, rests, rows, i, pushed);
  }

  lemma AppendLine(done: seq<HeapLine>, x: HeapLine)
    ensures Text(LinesOf(done + [x])) == Text(LinesOf(done)) + x.line + [NEWLINE]
  {
    LinesOfSplit(done, [x]);
    assert [x][1..] == [] && LinesOf([x]) == [x.line];
    TextAppend(LinesOf(done), [x.line]);
    TextOne(x.line);
    assert Text(LinesOf(done)) + (x.line + [NEWLINE]) == Text(LinesOf(done)) + x.line + [NEWLINE];
  }

  /** Once the heap is empty the output is the sorted concatenation. */
  lemma FinishedGroup(scans: seq<Bytes>, rests: seq<seq<Bytes>>, done: seq<HeapLine>, runs: seq<seq<Bytes>>)
    requires Merging(scans, [], rests, |rests|, done, runs)
    ensures LinesOf(done) == Sort(Le, Flatten(runs)) && AllShort(runs)
  {
    assert forall i: nat :: !Represents([], i);
    forall r, i: nat ensures multiset(done)[HeapLine(r, i)] == Count(runs, i, r) {
      assert Count(rests, i, r) == 0;
    }
    AllWritten(done, runs);
    forall i, r | 0 <= i < |runs| && r in runs[i] ensures Short(r) {
      assert Count(runs, i, r) > 0;
      assert HeapLine(r, i) in done;
    }
    assert forall i | 0 <= i < |runs| :: RunShort(runs[i]);
    LinesOfSorted(done);
    ByteOrder();
    SortCanonical(Le, LinesOf(done), Flatten(runs));
  }

  lemma AllWritten(done: seq<HeapLine>, runs: seq<seq<Bytes>>)
    requires forall r, i: nat {:trigger HeapLine(r, i)} :: multiset(done)[HeapLine(r, i)] == Count(runs, i, r)
    ensures multiset(LinesOf(done)) == multiset(Flatten(runs))
  {
    forall x: HeapLine ensures multiset(done)[x] == Tagged(runs, 0)[x] {
      TaggedCount(runs, 0, x.line, x.index);
      assert x == HeapLine(x.line, x.index);
    }
    LinesOfTagged(runs, 0, done);
  }

  function Min(a: nat, b: nat): nat {
    if a < b then a else b
  }

  /** The number of groups in a pass over n runs. */
  function Groups(n: nat): nat {
    (n + FAN_IN - 1) / FAN_IN
  }

  ghost function PassOutputs(pass: nat, n: nat): set<File> {
    set k: nat | k < Groups(n) :: MergeRun(pass, k)
  }

  /** Every file a merge of n runs creates, from this pass on. */
  ghost function Outputs(n: nat, pass: nat): set<File>
    decreases n
  {
    if n <= 1 then {} else PassOutputs(pass, n) + Outputs(Groups(n), pass + 1)
  }

  ghost predicate InPass(runs: seq<File>, pass: nat) {
    forall f | f in runs :: if pass == 0 then f.PageRun? else f.MergeRun? && f.pass == pass - 1
  }

  /** No output of this pass from number n on, or of a later pass, was created. */
  ghost predicate OutputsUntouched(initial: map<File, Bytes>, files: map<File, Bytes>, pass: nat, n: nat) {
    forall f: File | f.MergeRun? && (f.pass > pass || (f.pass == pass && f.index >= n)) ::
      f in files <==> f in initial
  }

  ghost predicate SamePageFiles(before: map<File, Bytes>, after: map<File, Bytes>) {
    forall f: File | f.PageRun? || f.CohortRun? ::
      (f in before <==> f in after) && (f in before ==> after[f] == before[f])
  }

  ghost predicate SameMergeFiles(before: map<File, Bytes>, after: map<File, Bytes>) {
    forall f: File | f.MergeRun? :: f in before <==> f in after
  }

  /** The output of a merge of n runs is there. */
  ghost predicate Blocked(files: map<File, Bytes>, n: nat) {
    exists f :: f in Outputs(n, 0) && f in files
  }

  /** A merge of n runs, however far it came, created nothing or left an output. */
  ghost predicate Marked(before: map<File, Bytes>, after: map<File, Bytes>, n: nat) {
    SameMergeFiles(before, after) || Blocked(after, n)
  }

  lemma KeepsRuns(before: map<File, Bytes>, after: map<File, Bytes>, paths: seq<File>, rows: seq<seq<Bytes>>, f: File)
    requires HoldsRuns(before, paths, rows) && SameExcept(before, after, f) && f !in paths
    ensures HoldsRuns(after, paths, rows)
  {
    forall i | 0 <= i < |paths| ensures paths[i] in after && after[paths[i]] == before[paths[i]] {
      assert paths[i] in paths;
    }
  }

  lemma AllShortSplit(a: seq<seq<Bytes>>, b: seq<seq<Bytes>>)
    ensures AllShort(a + b) <==> AllShort(a) && AllShort(b)
  {
    if AllShort(a + b) {
      forall i | 0 <= i < |a| ensures RunShort(a[i]) { assert a[i] == (a + b)[i]; }
      forall i | 0 <= i < |b| ensures RunShort(b[i]) { assert b[i] == (a + b)[|a| + i]; }
    }
  }

  lemma SingleRun(last: seq<seq<Bytes>>, rows: seq<seq<Bytes>>)
    requires |last| == 1 && Sorted(Le, last[0]) && multiset(Flatten(last)) == multiset(Flatten(rows))
    ensures last[0] == Sort(Le, Flatten(rows))
  {
    assert last == [] + [last[0]] && [] + last[0] == last[0];
    FlattenAppend([], last[0]);
    ByteOrder();
    SortCanonical(Le, last[0], Flatten(rows));
  }

  /** The result of merging a group is a run with the same rows. */
  lemma GroupMerged(group: seq<seq<Bytes>>)
    requires AllShort(group) && forall i | 0 <= i < |group| :: IsRun(group[i])
    ensures IsRun(Sort(Le, Flatten(group))) && AllShort([Sort(Le, Flatten(group))])
    ensures multiset(Sort(Le, Flatten(group))) == multiset(Flatten(group))
  {
    var merged := Sort(Le, Flatten(group));
    ByteOrder();
    SortSorts(Le, Flatten(group));
    forall r | r in merged ensures IsDocument(r) && Short(r) {
      assert r in multiset(merged);
      var i := FlattenMember(group, r);
    }
  }

  /** What a pass has merged so far: the same rows, all of them short. */
  ghost predicate PassedRows(nextRows: seq<seq<Bytes>>, consumed: seq<seq<Bytes>>) {
    && multiset(Flatten(nextRows)) == multiset(Flatten(consumed))
    && AllShort(consumed) && AllShort(nextRows)
  }

  /** The files a pass has created so far. */
  ghost predicate PassedFiles(initial: map<File, Bytes>, files: map<File, Bytes>, pass: nat,
                              next: seq<File>, nextRows: seq<seq<Bytes>>) {
    && HoldsRuns(files, next, nextRows)
    && (forall k: nat | k < |next| :: next[k] == MergeRun(pass, k) && next[k] !in initial)
    && OutputsUntouched(initial, files, pass, |next|)
  }

  lemma PassRows(nextRows: seq<seq<Bytes>>, consumed: seq<seq<Bytes>>, group: seq<seq<Bytes>>)
    requires PassedRows(nextRows, consumed) && AllShort(group)
    requires forall i | 0 <= i < |group| :: IsRun(group[i])
    ensures PassedRows(nextRows + [Sort(Le, Flatten(group))], consumed + group)
    ensures IsRun(Sort(Le, Flatten(group)))
  {
    var merged := Sort(Le, Flatten(group));
    GroupMerged(group);
    FlattenSplit(consumed, group);
    FlattenAppend(nextRows, merged);
    AllShortSplit(consumed, group);
    AllShortSplit(nextRows, [merged]);
  }

  lemma HoldsOneMore(before: map<File, Bytes>, next: seq<File>, nextRows: seq<seq<Bytes>>, output: File,
                     merged: seq<Bytes>)
    requires HoldsRuns(before, next, nextRows) && output !in before && IsRun(merged)
    ensures HoldsRuns(before[output := Text(merged)], next + [output], nextRows + [merged])
  {
    var after := before[output := Text(merged)];
    var paths, rows := next + [output], nextRows + [merged];
    forall i | 0 <= i < |paths|
      ensures paths[i] in after && after[paths[i]] == Text(rows[i]) && IsRun(rows[i])
    {
      if i < |next| {
        assert paths[i] == next[i] && rows[i] == nextRows[i] && next[i] in before;
      }
    }
  }

  lemma PassFiles(initial: map<File, Bytes>, before: map<File, Bytes>, pass: nat,
                  next: seq<File>, nextRows: seq<seq<Bytes>>, merged: seq<Bytes>)
    requires PassedFiles(initial, before, pass, next, nextRows) && IsRun(merged)
    requires MergeRun(pass, |next|) !in before
    ensures PassedFiles(initial, before[MergeRun(pass, |next|) := Text(merged)], pass,
                        next + [MergeRun(pass, |next|)], nextRows + [merged])
  {
    HoldsOneMore(before, next, nextRows, MergeRun(pass, |next|), merged);
  }

  lemma PassComplete(initial: map<File, Bytes>, files: map<File, Bytes>, pass: nat, n: nat,
                     next: seq<File>, nextRows: seq<seq<Bytes>>)
    requires PassedFiles(initial, files, pass, next, nextRows) && |next| == Groups(n)
    ensures PassOutputs(pass, n) !! initial.Keys
    ensures OutputsUntouched(initial, files, pass + 1, 0) && InPass(next, pass + 1)
    ensures next != [] ==> next[0] in PassOutputs(pass, n) && next[0] in files
  {
    forall f | f in PassOutputs(pass, n) ensures f !in initial {
      assert next[f.index] == f;
    }
  }

  lemma PassBlocked(initial: map<File, Bytes>, files: map<File, Bytes>, pass: nat, k: nat, rows: seq<seq<Bytes>>,
                    start: nat, end: nat)
    requires start == FAN_IN * k < |rows| && start <= end <= |rows|
    requires OutputsUntouched(initial, files, pass, k)
    requires !AllShort(rows[start..end]) || MergeRun(pass, k) in files
    ensures !AllShort(rows) || !(PassOutputs(pass, |rows|) !! initial.Keys)
  {
    if MergeRun(pass, k) in files {
      assert MergeRun(pass, k) in initial;
      assert MergeRun(pass, k) in PassOutputs(pass, |rows|);
    } else {
      assert rows == rows[..start] + (rows[start..end] + rows[end..]);
      AllShortSplit(rows[start..end], rows[end..]);
      AllShortSplit(rows[..start], rows[start..end] + rows[end..]);
    }
  }

  /** mergeRuns between two passes: what is left to merge stands for all rows,
      and it can be merged exactly if the whole could. */
  ghost predicate MergedSoFar(initial: map<File, Bytes>, files: map<File, Bytes>, n: nat, rows: seq<seq<Bytes>>,
                              current: seq<File>, pass: nat, currentRows: seq<seq<Bytes>>) {
    && |current| > 0 && HoldsRuns(files, current, currentRows) && InPass(current, pass)
    && multiset(Flatten(currentRows)) == multiset(Flatten(rows))
    && (AllShort(currentRows) <==> AllShort(rows))
    && (Outputs(n, 0) !! initial.Keys <==> Outputs(|current|, pass) !! initial.Keys)
    && OutputsUntouched(initial, files, pass, 0)
    && (n > 1 && |current| == 1 ==> AllShort(rows))
  }

  /** A pass, with or without the removal of its inputs. */
  lemma MergedStep(initial: map<File, Bytes>, before: map<File, Bytes>, files: map<File, Bytes>, n: nat,
                   rows: seq<seq<Bytes>>, current: seq<File>, pass: nat, currentRows: seq<seq<Bytes>>,
                   next: seq<File>, nextRows: seq<seq<Bytes>>)
    requires MergedSoFar(initial, before, n, rows, current, pass, currentRows) && |current| > 1
    requires PassedRows(nextRows, currentRows) && PassedFiles(initial, files, pass, next, nextRows)
    requires |next| == Groups(|current|) && PassOutputs(pass, |current|) !! initial.Keys
    ensures MergedSoFar(initial, files, n, rows, next, pass + 1, nextRows)
    ensures pass > 0 ==>
            MergedSoFar(initial, files - (set f | f in current), n, rows, next, pass + 1, nextRows)
    ensures |next| < |current|
  {
    assert Outputs(|current|, pass) == PassOutputs(pass, |current|) + Outputs(|next|, pass + 1);
    if pass > 0 {
      var after := files - (set f | f in current);
      forall i | 0 <= i < |next| ensures next[i] in after && after[next[i]] == files[next[i]] {
        assert next[i] == MergeRun(pass, i) && next[i] !in current;
      }
    }
  }

  /** Killed, stopped by an error, or done. */
  datatype MergeEnd = Killed | Stopped | Merged

  /** No file of another pass was created or removed, and either none of this pass
      was, or one is there. */
  ghost predicate PassMarks(before: map<File, Bytes>, after: map<File, Bytes>, pass: nat, n: nat) {
    && (forall f: File | f.MergeRun? && f.pass != pass :: f in before <==> f in after)
    && (SameMergeFiles(before, after) || exists f :: f in PassOutputs(pass, n) && f in after)
  }

  /** What a pass has done to the other files while it created `next`. */
  ghost predicate MarksSoFar(before: map<File, Bytes>, files: map<File, Bytes>, pass: nat, next: seq<File>) {
    && SamePageFiles(before, files)
    && (forall f: File | f.MergeRun? && f.pass != pass :: f in before <==> f in files)
    && if next == [] then SameMergeFiles(before, files) else next[0] == MergeRun(pass, 0) && next[0] in files
  }

  lemma MarksNext(before: map<File, Bytes>, middle: map<File, Bytes>, after: map<File, Bytes>, pass: nat,
                  next: seq<File>)
    requires MarksSoFar(before, middle, pass, next)
    requires SameExcept(middle, after, MergeRun(pass, |next|)) && MergeRun(pass, |next|) in after
    ensures MarksSoFar(before, after, pass, next + [MergeRun(pass, |next|)])
  {
  }

  /** A group leaves its own output, or nothing if there was none. */
  lemma GroupMarks(before: map<File, Bytes>, middle: map<File, Bytes>, after: map<File, Bytes>, pass: nat, n: nat,
                   next: seq<File>)
    requires MarksSoFar(before, middle, pass, next) && |next| < Groups(n)
    requires SameExcept(middle, after, MergeRun(pass, |next|))
    requires MergeRun(pass, |next|) in middle ==> MergeRun(pass, |next|) in after
    ensures SamePageFiles(before, after) && PassMarks(before, after, pass, n)
  {
    if MergeRun(pass, |next|) in after {
      assert MergeRun(pass, |next|) in PassOutputs(pass, n);
    } else if next != [] {
      assert MergeRun(pass, 0) in PassOutputs(pass, n) && MergeRun(pass, 0) in after;
    } else {
      assert MergeRun(pass, 0) !in middle;
    }
  }

  lemma PassMarked(before: map<File, Bytes>, files: map<File, Bytes>, pass: nat, n: nat, next: seq<File>)
    requires MarksSoFar(before, files, pass, next) && |next| == Groups(n)
    ensures SamePageFiles(before, files) && PassMarks(before, files, pass, n)
  {
    if next != [] {
      assert MergeRun(pass, 0) in PassOutputs(pass, n);
    }
  }

  class WorkDir {
    var files: map<File, Bytes>

    /** writeRun: replaces whatever an interrupted capture left under this name. */
    method WriteRun(run: File, rows: seq<Bytes>)
      modifies this
      ensures files == old(files)[run := Text(rows)]
    {
      var text: Bytes := [];
      for i := 0 to |rows|
        invariant text == Text(rows[..i]) && files == old(files)
      {
        assert rows[..i + 1] == rows[..i] + [rows[i]];
        TextAppend(rows[..i], [rows[i]]);
        TextOne(rows[i]);
        assert Text(rows[..i]) + (rows[i] + [NEWLINE]) == Text(rows[..i]) + rows[i] + [NEWLINE];
        text := text + rows[i] + [NEWLINE];
      }
      assert rows[..|rows|] == rows;
      files := files[run := text];
    }

    /** Opens every run of a group and delivers its first line. */
    method OpenScanners(paths: seq<File>, ghost rows: seq<seq<Bytes>>)
      returns (ok: bool, scans: seq<Bytes>, heap: seq<HeapLine>, ghost rests: seq<seq<Bytes>>)
      requires HoldsRuns(files, paths, rows)
      ensures ok ==> Merging(scans, heap, rests, |rests|, [], rows)
      ensures !ok ==> !AllShort(rows)
    {
      var contents := files;
      scans := seq(|paths|, i requires 0 <= i < |paths| && paths[i] in contents => contents[paths[i]]);
      heap, rests := [], rows;
      for i := 0 to |paths|
        invariant |scans| == |rests| == |rows|
        invariant forall j | i <= j < |rows| :: rests[j] == rows[j]
        invariant Merging(scans, heap, rests, i, [], rows)
      {
        ScanRun(rests[i]);
        match Scan(SCAN_LIMIT, scans[i])
        case Eof =>
        case TooLong =>
          assert rows[i][0] in rows[i];
          return false, scans, heap, rests;
        case Token(line, rest) =>
          ghost var before := heap;
          heap := PushLine(heap, HeapLine(line, i));
          StepOpen(scans, before, rests, i, rows, heap);
          rests, scans := rests[i := rests[i][1..]], scans[i := rest];
      }
      ok := true;
    }

    /** mergeGroup: one output file from a group of runs. It succeeds exactly when
        every row fits the scanner and the output does not exist yet. */
    method MergeGroup(paths: seq<File>, output: File, ghost rows: seq<seq<Bytes>>) returns (ok: bool)
      requires HoldsRuns(files, paths, rows)
      modifies this
      ensures ok <==> AllShort(rows) && output !in old(files)
      ensures ok ==> files == old(files)[output := Text(Sort(Le, Flatten(rows)))]
      ensures output in old(files) ==> files == old(files)
      ensures SameExcept(old(files), files, output)
    {
      var started, scans, heap, rests := OpenScanners(paths, rows);
      if !started || output in files {
        return false;
      }
      ghost var done: seq<HeapLine> := [];
      var text: Bytes := [];
      while heap != []
        invariant files == old(files)
        invariant Merging(scans, heap, rests, |rests|, done, rows)
        invariant text == Text(LinesOf(done))
        decreases |heap| + |Flatten(rests)|
      {
        var x, popped := PopLine(heap);
        AppendLine(done, x);
        text := text + x.line + [NEWLINE];
        Members(heap, popped, x);
        assert x in heap;
        ScanRun(rests[x.index]);
        match Scan(SCAN_LIMIT, scans[x.index]) {
          case Eof =>
            StepEof(scans, heap, rests, done, rows, x, popped);
            heap := popped;
          case TooLong =>
            assert rests[x.index][0] in rests[x.index];
            // Whatever the buffered writer had flushed stays behind.
            var cut: nat :| cut <= |text|;
            files := files[output := text[..cut]];
            return false;
          case Token(line, rest) =>
            var pushed := PushLine(popped, HeapLine(line, x.index));
            Members(pushed, popped, HeapLine(line, x.index));
            FlattenShrinks(rests, x.index);
            StepToken(scans, heap, rests, done, rows, x, popped, pushed);
            heap, scans := pushed, scans[x.index := rest];
            rests := rests[x.index := rests[x.index][1..]];
        }
        done := done + [x];
      }
      FinishedGroup(scans, rests, done, rows);
      files := files[output := text];
      ok := true;
    }

    /** One group of a pass: the runs from FAN_IN * |next| on. */
    method MergeNext(runs: seq<File>, pass: nat, next: seq<File>,
                     ghost rows: seq<seq<Bytes>>, ghost nextRows: seq<seq<Bytes>>, ghost initial: map<File, Bytes>)
      returns (ok: bool, ghost merged: seq<Bytes>)
      requires FAN_IN * |next| < |runs| && HoldsRuns(files, runs, rows) && InPass(runs, pass)
      requires PassedRows(nextRows, rows[..FAN_IN * |next|]) && PassedFiles(initial, files, pass, next, nextRows)
      modifies this
      ensures ok ==> HoldsRuns(files, runs, rows)
      ensures ok ==> PassedRows(nextRows + [merged], rows[..Min(FAN_IN * (|next| + 1), |runs|)])
      ensures ok ==> PassedFiles(initial, files, pass, next + [MergeRun(pass, |next|)], nextRows + [merged])
      ensures !ok ==> !AllShort(rows) || !(PassOutputs(pass, |rows|) !! initial.Keys)
      ensures SameExcept(old(files), files, MergeRun(pass, |next|))
      ensures ok || MergeRun(pass, |next|) in old(files) ==> MergeRun(pass, |next|) in files
    {
      var start, end := FAN_IN * |next|, Min(FAN_IN * (|next| + 1), |runs|);
      var output := MergeRun(pass, |next|);
      ghost var group := rows[start..end];
      assert rows[..end] == rows[..start] + group;
      ok := MergeGroup(runs[start..end], output, group);
      merged := Sort(Le, Flatten(group));
      if ok {
        KeepsRuns(old(files), files, runs, rows, output);
        PassRows(nextRows, rows[..start], group);
        PassFiles(initial, old(files), pass, next, nextRows, merged);
      } else {
        PassBlocked(initial, old(files), pass, |next|, rows, start, end);
      }
    }

    /** A group that is killed may have created its output. */
    method KillGroup(output: File)
      modifies this
      ensures SameExcept(old(files), files, output) && (output in old(files) ==> output in files)
    {
      var created: bool := *;
      if created && output !in files {
        var torn: Bytes := *;
        files := files[output := torn];
      }
    }

    /** One pass of mergeRuns over at least two runs. With a `life` the process is
        killed after so many groups. */
    method MergePass(runs: seq<File>, pass: nat, life: Option<nat>, ghost rows: seq<seq<Bytes>>,
                     ghost initial: map<File, Bytes>)
      returns (end: MergeEnd, next: seq<File>, left: Option<nat>, ghost nextRows: seq<seq<Bytes>>)
      requires HoldsRuns(files, runs, rows) && InPass(runs, pass) && runs != []
      requires OutputsUntouched(initial, files, pass, 0)
      modifies this
      ensures end.Killed? || left.Some? ==> life.Some?
      ensures end.Killed? || (end.Merged? <==> AllShort(rows) && PassOutputs(pass, |runs|) !! initial.Keys)
      ensures end.Merged? ==> |next| == Groups(|runs|)
      ensures end.Merged? ==> PassedRows(nextRows, rows) && PassedFiles(initial, files, pass, next, nextRows)
      ensures SamePageFiles(old(files), files) && PassMarks(old(files), files, pass, |runs|)
    {
      assert |runs| == |rows|;
      hide AllShort, OutputsUntouched, PassedFiles, HoldsRuns, InPass, PassOutputs, Sort, MarksSoFar, SameExcept;
      next, nextRows, left := [], [], life;
      NothingPassed(initial, files, pass);
      var start := 0;
      while start < |runs|
        invariant start == FAN_IN * |next| < |runs| + FAN_IN
        invariant HoldsRuns(files, runs, rows) && (left.Some? ==> life.Some?)
        invariant PassedRows(nextRows, rows[..Min(start, |runs|)])
        invariant PassedFiles(initial, files, pass, next, nextRows) && MarksSoFar(old(files), files, pass, next)
      {
        ghost var before := files;
        if left == Some(0) {
          KillGroup(MergeRun(pass, |next|));
          GroupMarks(old(files), before, files, pass, |runs|, next);
          end := Killed;
          return;
        }
        left := if left.Some? then Some(left.value - 1) else None;
        ghost var merged;
        var ok;
        ok, merged := MergeNext(runs, pass, next, rows, nextRows, initial);
        if !ok {
          GroupMarks(old(files), before, files, pass, |runs|, next);
          end := Stopped;
          return;
        }
        MarksNext(old(files), before, files, pass, next);
        next, nextRows := next + [MergeRun(pass, |next|)], nextRows + [merged];
        start := start + FAN_IN;
      }
      assert rows[..|runs|] == rows;
      PassComplete(initial, files, pass, |runs|, next, nextRows);
      PassMarked(old(files), files, pass, |runs|, next);
      end := Merged;
    }

    /** One turn of mergeRuns: a pass, and from the second one on the removal of its
        inputs. */
    method MergeTurn(current: seq<File>, pass: nat, life: Option<nat>, ghost n: nat, ghost rows: seq<seq<Bytes>>,
                     ghost currentRows: seq<seq<Bytes>>, ghost initial: map<File, Bytes>)
      returns (end: MergeEnd, next: seq<File>, left: Option<nat>, ghost nextRows: seq<seq<Bytes>>)
      requires Between(initial, files, n, rows, current, pass, currentRows) && |current| > 1
      modifies this
      ensures end.Killed? || left.Some? ==> life.Some?
      ensures end.Merged? ==> Between(initial, files, n, rows, next, pass + 1, nextRows) && |next| < |current|
      ensures end.Stopped? ==> n > 1 && !(AllShort(rows) && Outputs(n, 0) !! initial.Keys)
      ensures SamePageFiles(initial, files) && Marked(initial, files, n)
    {
      hide AllShort, PassedRows, PassedFiles, PassOutputs, PassMarks, Outputs, Sort, HoldsRuns, InPass, Marked;
      ghost var before := files;
      end, next, left, nextRows := MergePass(current, pass, life, currentRows, initial);
      PassLeaves(initial, before, files, n, rows, current, pass, currentRows);
      if !end.Merged? {
        StoppedPass(initial, before, n, rows, current, pass, currentRows);
        return;
      }
      PassComplete(initial, files, pass, |current|, next, nextRows);
      LaterOutputs(|current|, pass);
      MergedStep(initial, before, files, n, rows, current, pass, currentRows, next, nextRows);
      if pass > 0 {
        ghost var merges := files;
        if left == Some(0) {
          var removed: set<File> := *;
          files := files - (set f | f in current && f in removed);
          end := Killed;
        } else {
          files := files - (set f | f in current);
        }
        RemovalKeeps(initial, merges, files, n, current, pass, next);
      }
    }

    /** mergeRuns: passes over at most FAN_IN runs at a time until one run is left.
        Page runs are never removed, so a checkpoint keeps referring to them. Unless it
        is killed, it succeeds exactly when there is nothing to merge, or every row fits
        the scanner and no output of an earlier merge is in the way. However it ends, it
        created nothing or an output is left. */
    method MergeRuns(runs: seq<File>, life: Option<nat>, ghost rows: seq<seq<Bytes>>)
      returns (end: MergeEnd, merged: File)
      requires HoldsRuns(files, runs, rows) && forall f | f in runs :: f.PageRun?
      modifies this
      ensures end.Killed? ==> life.Some?
      ensures end.Killed? ||
              (end.Merged? <==> |runs| <= 1 || (AllShort(rows) && Outputs(|runs|, 0) !! old(files).Keys))
      ensures end.Merged? ==> merged in files && files[merged] == Text(Sort(Le, Flatten(rows)))
      ensures SamePageFiles(old(files), files) && Marked(old(files), files, |runs|)
    {
      hide AllShort, Outputs, Sort, HoldsRuns, InPass, Between, SamePageFiles, Marked, Flatten, Text;
      if |runs| == 0 {
        NoRuns(files, runs, rows);
        files := files[EmptyRun := []];
        return Merged, EmptyRun;
      }
      var pass: nat := 0;
      var current, left := runs, life;
      ghost var currentRows := rows;
      StartMerge(files, runs, rows);
      while |current| > 1
        invariant Between(old(files), files, |runs|, rows, current, pass, currentRows)
        invariant |current| > 0 && (left.Some? ==> life.Some?)
        invariant SamePageFiles(old(files), files) && Marked(old(files), files, |runs|)
        decreases |current|
      {
        var passed, next;
        ghost var nextRows;
        passed, next, left, nextRows := MergeTurn(current, pass, left, |runs|, rows, currentRows, old(files));
        if !passed.Merged? {
          return passed, EmptyRun;
        }
        SomeRunLeft(old(files), files, |runs|, rows, next, pass + 1, nextRows);
        current, currentRows, pass := next, nextRows, pass + 1;
      }
      OneRunLeft(old(files), files, |runs|, rows, current, pass, currentRows);
      return Merged, current[0];
    }
  }

  /** mergeRuns between two turns. */
  ghost predicate Between(initial: map<File, Bytes>, files: map<File, Bytes>, n: nat, rows: seq<seq<Bytes>>,
                          current: seq<File>, pass: nat, currentRows: seq<seq<Bytes>>) {
    && MergedSoFar(initial, files, n, rows, current, pass, currentRows)
    && SamePageFiles(initial, files) && Outputs(|current|, pass) <= Outputs(n, 0) && |current| <= n
    && if pass == 0 then SameMergeFiles(initial, files) else current[0] in Outputs(n, 0)
  }

  lemma SomeRunLeft(initial: map<File, Bytes>, files: map<File, Bytes>, n: nat, rows: seq<seq<Bytes>>,
                    current: seq<File>, pass: nat, currentRows: seq<seq<Bytes>>)
    requires Between(initial, files, n, rows, current, pass, currentRows)
    ensures |current| > 0
  {
  }

  lemma StartMerge(files: map<File, Bytes>, runs: seq<File>, rows: seq<seq<Bytes>>)
    requires HoldsRuns(files, runs, rows) && runs != [] && forall f | f in runs :: f.PageRun?
    ensures Between(files, files, |runs|, rows, runs, 0, rows)
    ensures SamePageFiles(files, files) && Marked(files, files, |runs|)
  {
  }

  lemma NoRuns(files: map<File, Bytes>, runs: seq<File>, rows: seq<seq<Bytes>>)
    requires HoldsRuns(files, runs, rows) && runs == []
    ensures var after := files[EmptyRun := []];
            SamePageFiles(files, after) && Marked(files, after, 0) && after[EmptyRun] == Text(Sort(Le, Flatten(rows)))
  {
    assert rows == [];
  }

  /** Why a pass stops is why the merge stops. */
  lemma StoppedPass(initial: map<File, Bytes>, files: map<File, Bytes>, n: nat, rows: seq<seq<Bytes>>,
                    current: seq<File>, pass: nat, currentRows: seq<seq<Bytes>>)
    requires MergedSoFar(initial, files, n, rows, current, pass, currentRows) && 1 < |current| <= n
    ensures !(AllShort(currentRows) && PassOutputs(pass, |current|) !! initial.Keys)
            ==> !(AllShort(rows) && Outputs(n, 0) !! initial.Keys)
  {
    LaterOutputs(|current|, pass);
  }

  /** Removing inputs of a later pass keeps the page runs and the outputs. */
  lemma RemovalKeeps(initial: map<File, Bytes>, before: map<File, Bytes>, after: map<File, Bytes>, n: nat,
                     current: seq<File>, pass: nat, next: seq<File>)
    requires InPass(current, pass) && pass > 0 && SamePageFiles(initial, before)
    requires forall f | f !in current :: (f in before <==> f in after) && (f in before ==> after[f] == before[f])
    requires next != [] && next[0] in before && next[0] in Outputs(n, 0) && next[0].MergeRun? && next[0].pass == pass
    ensures SamePageFiles(initial, after) && Marked(initial, after, n)
  {
    assert next[0] !in current;
    assert next[0] in after;
  }

  lemma LaterOutputs(n: nat, pass: nat)
    requires n > 1
    ensures PassOutputs(pass, n) <= Outputs(n, pass) && Outputs(Groups(n), pass + 1) <= Outputs(n, pass)
  {
  }

  lemma OneRunLeft(initial: map<File, Bytes>, files: map<File, Bytes>, n: nat, rows: seq<seq<Bytes>>,
                   current: seq<File>, pass: nat, currentRows: seq<seq<Bytes>>)
    requires Between(initial, files, n, rows, current, pass, currentRows) && |current| == 1
    ensures current[0] in files && files[current[0]] == Text(Sort(Le, Flatten(rows)))
    ensures n <= 1 || (AllShort(rows) && Outputs(n, 0) !! initial.Keys)
  {
    SingleRun(currentRows, rows);
  }

  lemma NothingPassed(initial: map<File, Bytes>, files: map<File, Bytes>, pass: nat)
    requires OutputsUntouched(initial, files, pass, 0)
    ensures PassedRows([], []) && PassedFiles(initial, files, pass, [], []) && MarksSoFar(files, files, pass, [])
  {
  }

  /** However a pass ends, the merge created nothing or an output is left. */
  lemma PassLeaves(initial: map<File, Bytes>, before: map<File, Bytes>, after: map<File, Bytes>, n: nat,
                   rows: seq<seq<Bytes>>, current: seq<File>, pass: nat, currentRows: seq<seq<Bytes>>)
    requires MergedSoFar(initial, before, n, rows, current, pass, currentRows) && |current| > 1
    requires PassMarks(before, after, pass, |current|) && Outputs(|current|, pass) <= Outputs(n, 0)
    requires if pass == 0 then SameMergeFiles(initial, before) else current[0] in Outputs(n, 0)
    ensures Marked(initial, after, n)
  {
    if !SameMergeFiles(before, after) {
      var f :| f in PassOutputs(pass, |current|) && f in after;
      assert f in Outputs(|current|, pass);
    } else if pass > 0 {
      assert current[0] in current && current[0] in before && current[0] in after;
    }
  }
}
