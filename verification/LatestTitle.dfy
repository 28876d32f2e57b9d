// Doubly linked lists of titles: counting them, and finding the latest one, from any node.

module LatestTitle {
  class TitleInfo {
    const version: nat
    const isPatch: bool // a patch or a data patch
    var previous: TitleInfo?
    var next: TitleInfo?

    constructor (version: nat, isPatch: bool)
      ensures this.version == version && this.isPatch == isPatch && previous == null && next == null
    {
      this.version, this.isPatch, previous, next := version, isPatch, null, null;
    }
  }

  // The nodes of one list, from its head to its tail.
  ghost predicate Linked(nodes: seq<TitleInfo>)
    reads nodes
  {
    && (forall i {:trigger nodes[i].previous} :: 0 <= i < |nodes| ==> nodes[i].previous == Node(nodes, i - 1))
    && (forall i {:trigger nodes[i].next} :: 0 <= i < |nodes| ==> nodes[i].next == Node(nodes, i + 1))
  }

  function Node(nodes: seq<TitleInfo>, i: int): TitleInfo? {
    if 0 <= i < |nodes| then nodes[i] else null
  }

  function Versions(nodes: seq<TitleInfo>): (v: seq<nat>)
    ensures |v| == |nodes| && forall i :: 0 <= i < |v| ==> v[i] == nodes[i].version
  {
    seq(|nodes|, i requires 0 <= i < |nodes| => nodes[i].version)
  }

  // titleGetCountFromInfoBlock
  method CountFromInfoBlock(title: TitleInfo?, ghost nodes: seq<TitleInfo>, ghost at: nat) returns (count: nat)
    requires title != null ==> Linked(nodes) && at < |nodes| && nodes[at] == title
    ensures count == if title == null then 0 else |nodes|
  {
    if title == null { return 0; }
    count := 1;
    var cur := title.previous;
    ghost var i: int := at - 1;
    assert nodes[at].previous == cur;
    while cur != null
      invariant -1 <= i < at && count == at - i
      invariant cur == Node(nodes, i)
      decreases i
    {
      assert nodes[i].previous == Node(nodes, i - 1);
      count := count + 1;
      cur := cur.previous;
      i := i - 1;
    }
    cur := title.next;
    i := at + 1;
    assert nodes[at].next == cur;
    while cur != null
      invariant at < i <= |nodes| && count == i
      invariant cur == Node(nodes, i)
      decreases |nodes| - i
    {
      assert nodes[i].next == Node(nodes, i + 1);
      count := count + 1;
      cur := cur.next;
      i := i + 1;
    }
  }

  // getLatestTitleInfo: the newest title of a list of patches, its position, and the list's length.
  method LatestTitleInfo(title: TitleInfo?, ghost nodes: seq<TitleInfo>, ghost at: nat)
    returns (latest: TitleInfo?, idx: nat, count: nat)
    requires title != null ==> Linked(nodes) && at < |nodes| && nodes[at] == title
    ensures title == null ==> latest == null && idx == 0 && count == 0
    ensures title != null ==> count == |nodes|
    ensures title != null && !title.isPatch ==> latest == title && idx == 0
    ensures title != null && title.isPatch ==> idx == Latest(Versions(nodes), at) && latest == nodes[idx]
  {
    if title == null || !title.isPatch {
      count := CountFromInfoBlock(title, nodes, at);
      return title, 0, count;
    }
    ghost var v := Versions(nodes);
    idx, count := 0, 1;
    var cur, out := title.previous, title;
    ghost var i, best: int := at - 1, at;
    assert nodes[at].previous == cur;
    while cur != null
      invariant -1 <= i < at && count == at - i && i < best <= at && out == nodes[best]
      invariant cur == Node(nodes, i)
      invariant Backward(v, at, at) == Backward(v, i + 1, best)
      invariant best == at || (v[best] > v[at] && idx == at - best + 1)
      decreases i
    {
      assert nodes[i].previous == Node(nodes, i - 1);
      count := count + 1;
      if cur.version > out.version {
        out := cur;
        idx := count;
        best := i;
      }
      cur := cur.previous;
      i := i - 1;
    }
    idx := if out != title then count - idx else count - 1;
    assert idx == best == Backward(v, at, at);
    cur := title.next;
    i := at + 1;
    assert nodes[at].next == cur;
    while cur != null
      invariant at < i <= |nodes| && count == i && 0 <= best < i && out == nodes[best] && idx == best
      invariant cur == Node(nodes, i)
      invariant Latest(v, at) == Forward(v, i, best)
      decreases |nodes| - i
    {
      assert nodes[i].next == Node(nodes, i + 1);
      count := count + 1;
      if cur.version > out.version {
        out := cur;
        idx := count - 1;
        best := i;
      }
      cur := cur.next;
      i := i + 1;
    }
    latest := out;
  }

  // The first node of maximal version that is met: the position the search reports is determined by
  // the versions and the start alone.
  function Latest(versions: seq<nat>, at: nat): (k: nat)
    requires at < |versions|
  {
    Forward(versions, at + 1, Backward(versions, at, at))
  }

  // Going back from i, keeping the best so far.
  function Backward(versions: seq<nat>, i: nat, best: nat): (k: nat)
    requires i <= best < |versions|
    ensures k < |versions|
  {
    if i == 0 then best
    else Backward(versions, i - 1, if versions[i - 1] > versions[best] then i - 1 else best)
  }

  function Forward(versions: seq<nat>, i: nat, best: nat): (k: nat)
    requires best < |versions| && i <= |versions|
    ensures k < |versions|
    decreases |versions| - i
  {
    if i == |versions| then best
    else Forward(versions, i + 1, if versions[i] > versions[best] then i else best)
  }

  lemma {:induction false} BackwardIsBest(v: seq<nat>, i: nat, best: nat)
    requires i <= best < |v|
    ensures var k := Backward(v, i, best);
            && v[best] <= v[k] && (forall j :: 0 <= j < i ==> v[j] <= v[k])
            && (k != best ==> k < i && v[k] > v[best] && forall j :: k < j < i ==> v[j] < v[k])
  {
    if i > 0 { BackwardIsBest(v, i - 1, if v[i - 1] > v[best] then i - 1 else best); }
  }

  lemma {:induction false} ForwardIsBest(v: seq<nat>, i: nat, best: nat)
    requires best < |v| && i <= |v|
    ensures var k := Forward(v, i, best);
            && v[best] <= v[k] && (forall j :: i <= j < |v| ==> v[j] <= v[k])
            && (k != best ==> i <= k && v[k] > v[best] && forall j :: i <= j < k ==> v[j] < v[k])
    decreases |v| - i
  {
    if i < |v| { ForwardIsBest(v, i + 1, if v[i] > v[best] then i else best); }
  }

  // The search finds a title of maximal version. The start wins every tie, nodes before it win ties
  // with nodes behind it, and on either side the node nearest to the start wins.
  lemma LatestIsNewest(v: seq<nat>, at: nat)
    requires at < |v|
    ensures var k := Latest(v, at);
            && (forall j :: 0 <= j < |v| ==> v[j] <= v[k])
            && (v[at] == v[k] ==> k == at)
            && (k < at ==> forall j :: k < j <= at ==> v[j] < v[k])
            && (k > at ==> forall j :: 0 <= j < k ==> v[j] < v[k])
  {
    BackwardIsBest(v, at, at);
    ForwardIsBest(v, at + 1, Backward(v, at, at));
  }
}
