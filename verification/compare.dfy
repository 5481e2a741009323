/** `compare_files`: lock-step chunked comparison of two open files.
    The method rewinds both cursors and runs the do-while loop of the C
    code; `Run` is the same loop as a function of the two files and the
    cursors, and the lemmas say what its answer means. */
module Compare {
  import opened Kernel

  /** Bytes requested by every read. */
  const BUF_SIZE: nat := 1024

  /** compare_files's return value together with where it leaves the two
      cursors. */
  datatype Outcome = Outcome(rc: int, pos1: nat, pos2: nat)

  /** Bytes a regular file holds; nothing can be read from anything else. */
  function Size(n: Node): nat { if n.Regular? then |n.content| else 0 }

  function Advance(p: nat, r: ReadResult): nat { if r.Read? then p + |r.bytes| else p }

  /** The comparison loop started with the cursors at p1 and p2. */
  function Run(n1: Node, n2: Node, p1: nat, p2: nat): (o: Outcome)
    requires p1 <= Size(n1)
    ensures o.rc == -EIO || o.rc == 0 || o.rc == 1
    ensures p1 <= o.pos1 <= Size(n1) && p2 <= o.pos2
    ensures o.rc == 1 ==> o.pos1 - p1 == o.pos2 - p2
    decreases Size(n1) - p1
  {
    var r1 := ReadAt(n1, p1, BUF_SIZE);
    var r2 := ReadAt(n2, p2, BUF_SIZE);
    if r1.ReadFailed? || r2.ReadFailed? then
      Outcome(-EIO, Advance(p1, r1), Advance(p2, r2))
    else if |r1.bytes| != |r2.bytes| || r1.bytes != r2.bytes then
      Outcome(0, p1 + |r1.bytes|, p2 + |r2.bytes|)
    else if |r1.bytes| > 0 && |r2.bytes| > 0 then
      Run(n1, n2, p1 + |r1.bytes|, p2 + |r2.bytes|)
    else
      Outcome(1, p1, p2)
  }

  /** compare_files(file1, file2): 1 for equal contents, 0 for a chunk pair
      that differs, -EIO when a read fails. It rewinds both cursors first,
      so neither cursor's earlier position matters. */
  method CompareFiles(f1: File, f2: File) returns (rc: int)
    requires f1 != f2
    modifies f1, f2
    ensures Outcome(rc, f1.pos, f2.pos) == Run(f1.node, f2.node, 0, 0)
    ensures Healthy(f1.node) && Healthy(f2.node) ==>
              rc == (if f1.node.content == f2.node.content then 1 else 0)
  {
    ghost var n1, n2 := f1.node, f2.node;
    f1.pos := 0;
    f2.pos := 0;
    ghost var want := Run(n1, n2, 0, 0);
    assert Healthy(n1) && Healthy(n2) ==> want.rc == (if n1.content == n2.content then 1 else 0) by {
      if Healthy(n1) && Healthy(n2) {
        CompareDecidesEquality(n1, n2);
      }
    }
    // the do-while loop: its condition is tested after the body
    while true
      invariant f1.pos <= Size(n1)
      invariant Run(n1, n2, f1.pos, f2.pos) == want
      invariant n1.Regular? && n2.Regular? ==>
                  f1.pos == f2.pos <= |n2.content| && n1.content[..f1.pos] == n2.content[..f2.pos]
      decreases Size(n1) - f1.pos
    {
      ghost var p1, p2 := f1.pos, f2.pos;
      var r1 := KernelRead(f1, BUF_SIZE);
      var r2 := KernelRead(f2, BUF_SIZE);
      if r1.ReadFailed? || r2.ReadFailed? {
        RunStep(n1, n2, p1, p2, r1, r2);
        return -EIO;
      }
      if |r1.bytes| != |r2.bytes| || r1.bytes != r2.bytes {
        RunStep(n1, n2, p1, p2, r1, r2);
        return 0;
      }
      if !(|r1.bytes| > 0 && |r2.bytes| > 0) {
        RunStep(n1, n2, p1, p2, r1, r2);
        break;
      }
      RunContinues(n1, n2, p1, p2, f1.pos, f2.pos);
      PrefixGrows(n1, n2, p1, p2, f1.pos, f2.pos);
    }
    return 1;
  }

  /** The bytes read so far followed by the chunk just read are the bytes
      read up to the new cursors, and the chunk came from both files alike:
      the prefixes read stay equal. */
  lemma PrefixGrows(n1: Node, n2: Node, p1: nat, p2: nat, q1: nat, q2: nat)
    requires p1 <= Size(n1)
    requires n1.Regular? && n2.Regular? ==>
               p1 == p2 <= |n2.content| && n1.content[..p1] == n2.content[..p2]
    requires ReadAt(n1, p1, BUF_SIZE).Read? && ReadAt(n1, p1, BUF_SIZE) == ReadAt(n2, p2, BUF_SIZE)
    requires q1 == p1 + |ReadAt(n1, p1, BUF_SIZE).bytes| && q2 == p2 + |ReadAt(n1, p1, BUF_SIZE).bytes|
    ensures n1.Regular? && n2.Regular? ==>
              q1 == q2 <= |n2.content| && n1.content[..q1] == n2.content[..q2]
  {
    var b := ReadAt(n1, p1, BUF_SIZE).bytes;
    assert n1.content[..q1] == n1.content[..p1] + b;
    assert n2.content[..q2] == n2.content[..p2] + b;
  }

  /** A turn of the loop whose two reads return the same non-empty chunk
      hands over to the next turn, at the advanced cursors q1 and q2. */
  lemma RunContinues(n1: Node, n2: Node, p1: nat, p2: nat, q1: nat, q2: nat)
    requires p1 < q1 <= Size(n1)
    requires ReadAt(n1, p1, BUF_SIZE).Read? && ReadAt(n1, p1, BUF_SIZE) == ReadAt(n2, p2, BUF_SIZE)
    requires q1 == p1 + |ReadAt(n1, p1, BUF_SIZE).bytes| && q2 == p2 + |ReadAt(n1, p1, BUF_SIZE).bytes|
    ensures Run(n1, n2, p1, p2) == Run(n1, n2, q1, q2)
  {
  }

  /** One turn of the loop, given the results of its two reads. */
  lemma RunStep(n1: Node, n2: Node, p1: nat, p2: nat, r1: ReadResult, r2: ReadResult)
    requires p1 <= Size(n1)
    requires r1 == ReadAt(n1, p1, BUF_SIZE) && r2 == ReadAt(n2, p2, BUF_SIZE)
    ensures r1.ReadFailed? || r2.ReadFailed? ==>
              Run(n1, n2, p1, p2) == Outcome(-EIO, Advance(p1, r1), Advance(p2, r2))
    ensures r1.Read? && r2.Read? && r1.bytes != r2.bytes ==>
              Run(n1, n2, p1, p2) == Outcome(0, p1 + |r1.bytes|, p2 + |r2.bytes|)
    ensures r1.Read? && r2.Read? && r1.bytes == r2.bytes && r1.bytes != [] ==>
              p1 + |r1.bytes| <= Size(n1) &&
              Run(n1, n2, p1, p2) == Run(n1, n2, p1 + |r1.bytes|, p2 + |r2.bytes|)
    ensures r1.Read? && r2.Read? && r1.bytes == r2.bytes == [] ==>
              Run(n1, n2, p1, p2) == Outcome(1, p1, p2)
  {
  }

  /** A regular file none of whose reads fail. */
  predicate Healthy(n: Node)
  {
    n.Regular? && (n.faultAt.None? || n.faultAt.value > |n.content|)
  }

  /** A read from a fault-free file depends only on the bytes after the
      cursor: it returns the next BUF_SIZE of them, or all that remain. */
  lemma HealthyRead(n: Node, p: nat)
    requires Healthy(n) && p <= |n.content|
    ensures ReadAt(n, p, BUF_SIZE) == Read(n.content[p..][..Min(BUF_SIZE, |n.content| - p)])
  {
  }

  /** The next chunk of a fault-free file read at cursor p. */
  function Chunk(n: Node, p: nat): seq<byte>
    requires Healthy(n) && p <= |n.content|
  {
    n.content[p..][..Min(BUF_SIZE, |n.content| - p)]
  }

  /** One turn of the loop on fault-free files with equal cursors. */
  lemma HealthyStep(n1: Node, n2: Node, p: nat)
    requires Healthy(n1) && Healthy(n2)
    requires p <= |n1.content| && p <= |n2.content|
    ensures Run(n1, n2, p, p) ==
              if Chunk(n1, p) != Chunk(n2, p) then Outcome(0, p + |Chunk(n1, p)|, p + |Chunk(n2, p)|)
              else if Chunk(n1, p) != [] then Run(n1, n2, p + |Chunk(n1, p)|, p + |Chunk(n1, p)|)
              else Outcome(1, p, p)
  {
    HealthyRead(n1, p);
    HealthyRead(n2, p);
  }

  /** On fault-free files the loop answers exactly whether the unread
      remainders are equal. */
  lemma {:induction false} HealthyRunDecidesEquality(n1: Node, n2: Node, p: nat)
    requires Healthy(n1) && Healthy(n2)
    requires p <= |n1.content| && p <= |n2.content|
    ensures Run(n1, n2, p, p).rc == (if n1.content[p..] == n2.content[p..] then 1 else 0)
    decreases |n1.content| - p
  {
    HealthyStep(n1, n2, p);
    var b1, b2 := Chunk(n1, p), Chunk(n2, p);
    ChunkSplit(n1, p);
    ChunkSplit(n2, p);
    if b1 == b2 && b1 != [] {
      HealthyRunDecidesEquality(n1, n2, p + |b1|);
    }
  }

  /** The unread remainder is the next chunk followed by what lies after it. */
  lemma ChunkSplit(n: Node, p: nat)
    requires Healthy(n) && p <= |n.content|
    ensures |Chunk(n, p)| == Min(BUF_SIZE, |n.content| - p)
    ensures n.content[p..] == Chunk(n, p) + n.content[p + |Chunk(n, p)|..]
  {
  }

  /** Exact-equality soundness: on fault-free files compare_files returns 1
      when the contents are equal and 0 when they are not. */
  lemma CompareDecidesEquality(n1: Node, n2: Node)
    requires Healthy(n1) && Healthy(n2)
    ensures Run(n1, n2, 0, 0).rc == (if n1.content == n2.content then 1 else 0)
  {
    HealthyRunDecidesEquality(n1, n2, 0);
    assert n1.content[0..] == n1.content && n2.content[0..] == n2.content;
  }

  /** A fault at offset k is reached by a full scan of content c. */
  predicate FaultReached(fault: Option<nat>, c: seq<byte>)
  {
    fault.Some? && fault.value <= |c|
  }

  /** Two files with the same bytes: the loop reads to the end, so it answers
      -EIO exactly when a fault lies within reach of either file and 1
      otherwise; it never answers 0. */
  lemma {:induction false} SameContentRun(c: seq<byte>, f1: Option<nat>, f2: Option<nat>, p: nat)
    requires p <= |c|
    ensures Run(Regular(c, f1), Regular(c, f2), p, p).rc ==
              (if FaultReached(f1, c) || FaultReached(f2, c) then -EIO else 1)
    decreases |c| - p
  {
    var n1, n2 := Regular(c, f1), Regular(c, f2);
    var r1 := ReadAt(n1, p, BUF_SIZE);
    var r2 := ReadAt(n2, p, BUF_SIZE);
    if r1.Read? && r2.Read? && |r1.bytes| > 0 {
      SameContentRun(c, f1, f2, p + |r1.bytes|);
    }
  }

  /** compare_files on two handles with identical bytes. */
  lemma IdenticalBytes(c: seq<byte>, f1: Option<nat>, f2: Option<nat>)
    ensures Run(Regular(c, f1), Regular(c, f2), 0, 0).rc ==
              (if FaultReached(f1, c) || FaultReached(f2, c) then -EIO else 1)
  {
    SameContentRun(c, f1, f2, 0);
  }

  /** A reference that is not a regular file (a directory, say) makes the
      first read fail, whatever the other file holds. */
  lemma NonRegularFails(n1: Node, n2: Node)
    requires !n1.Regular?
    ensures Run(n1, n2, 0, 0) == Outcome(-EIO, 0, Advance(0, ReadAt(n2, 0, BUF_SIZE)))
  {
  }

  /** Index of the first byte where a and b disagree, or the length of the
      shorter one when it is a prefix of the other. */
  function FirstDiff(a: seq<byte>, b: seq<byte>): (d: nat)
    requires a != b
    ensures d <= |a| && d <= |b| && a[..d] == b[..d]
    ensures d < |a| && d < |b| ==> a[d] != b[d]
    ensures d == |a| || d == |b| || a[d] != b[d]
  {
    if a == [] || b == [] || a[0] != b[0] then 0
    else
      assert a[1..] != b[1..] by { assert a == [a[0]] + a[1..] && b == [b[0]] + b[1..]; }
      1 + FirstDiff(a[1..], b[1..])
  }

  /** End of the chunk that holds offset d. */
  function ChunkEnd(d: nat): nat { (d / BUF_SIZE + 1) * BUF_SIZE }

  /** Offset d lies in chunk k. */
  lemma ChunkIndex(d: nat, k: nat)
    requires k * BUF_SIZE <= d < k * BUF_SIZE + BUF_SIZE
    ensures d / BUF_SIZE == k
  {
  }

  /** Short-circuit: on fault-free files that differ, the loop stops in the
      chunk that holds the first difference; neither cursor gets past the
      end of that chunk. Chunk k starts at k * BUF_SIZE. */
  lemma {:induction false} StopsAtFirstDifferingChunk(n1: Node, n2: Node, k: nat)
    requires Healthy(n1) && Healthy(n2) && n1.content != n2.content
    requires k * BUF_SIZE <= FirstDiff(n1.content, n2.content)
    ensures Run(n1, n2, k * BUF_SIZE, k * BUF_SIZE).rc == 0
    ensures Run(n1, n2, k * BUF_SIZE, k * BUF_SIZE).pos1 <= ChunkEnd(FirstDiff(n1.content, n2.content))
    ensures Run(n1, n2, k * BUF_SIZE, k * BUF_SIZE).pos2 <= ChunkEnd(FirstDiff(n1.content, n2.content))
    decreases |n1.content| - k * BUF_SIZE
  {
    var c1, c2 := n1.content, n2.content;
    var d := FirstDiff(c1, c2);
    var p := k * BUF_SIZE;
    HealthyStep(n1, n2, p);
    if p + BUF_SIZE <= d {
      CommonChunk(c1, c2, d, p);
      assert (k + 1) * BUF_SIZE == p + BUF_SIZE;
      StopsAtFirstDifferingChunk(n1, n2, k + 1);
    } else {
      ChunkIndex(d, k);
      DifferingChunk(n1, n2, d, p);
    }
  }

  /** A chunk inside the common prefix reads the same from both files. */
  lemma CommonChunk(c1: seq<byte>, c2: seq<byte>, d: nat, p: nat)
    requires d <= |c1| && d <= |c2| && c1[..d] == c2[..d] && p + BUF_SIZE <= d
    ensures c1[p..][..BUF_SIZE] == c2[p..][..BUF_SIZE]
  {
    assert c1[p..][..BUF_SIZE] == c1[..d][p..p + BUF_SIZE];
    assert c2[p..][..BUF_SIZE] == c2[..d][p..p + BUF_SIZE];
  }

  /** The chunk that holds the first difference reads differently. */
  lemma DifferingChunk(n1: Node, n2: Node, d: nat, p: nat)
    requires Healthy(n1) && Healthy(n2) && n1.content != n2.content
    requires d == FirstDiff(n1.content, n2.content) && p <= d < p + BUF_SIZE
    ensures Chunk(n1, p) != Chunk(n2, p)
  {
    var c1, c2 := n1.content, n2.content;
    var b1, b2 := Chunk(n1, p), Chunk(n2, p);
    if d < |c1| && d < |c2| {
      assert b1[d - p] == c1[d] && b2[d - p] == c2[d];
    } else if |c1| != |c2| {
      assert |b1| != |b2|;
    }
  }
}
