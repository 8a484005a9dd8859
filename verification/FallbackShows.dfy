/** What it means that the real queues are in a state of FallbackQueue: its numbers stand for their tasks. */
module FallbackShows {
  import opened Strconv
  import opened SpoolDisk
  import opened SpoolIndex
  import opened SubmitSpool
  import D = FallbackDisk

  /** What makes up a task, whatever the number of attempts. */
  datatype Content = Content(opts: SubmitOptions, enqueuedAt: int)

  /** What the protocol's task numbers stand for; None is a file on disk that does not decode. */
  type Labels = map<nat, Option<Content>>

  function ContentOf(t: BufferedTask): Content { Content(t.opts, t.enqueuedAt) }

  function StoredContent(codec: Codec, data: Bytes): Option<Content> {
    match codec.unmarshal(data)
    case Some(t) => Some(Content(t.opts, t.enqueuedAt))
    case None => None
  }

  predicate Labelled(labels: Labels, id: nat, c: Option<Content>) { id in labels && labels[id] == c }

  // ------------------------------------------------------------ the two queues

  /** The tasks of queue are those the protocol calls ids. */
  ghost predicate MemShows(labels: Labels, queue: seq<BufferedTask>, ids: seq<nat>) {
    |ids| == |queue| && forall i | 0 <= i < |ids| :: Labelled(labels, ids[i], Some(ContentOf(queue[i])))
  }

  /** The records are those of the protocol's disk queue, number by number. */
  ghost predicate DiskShows(labels: Labels, codec: Codec, recs: seq<Record>, l2: seq<D.Rec>) {
    |l2| == |recs| && forall i | 0 <= i < |l2| ::
      l2[i].no == recs[i].no && Labelled(labels, l2[i].id, StoredContent(codec, recs[i].data))
  }

  /** The tasks read are those of the protocol's batch. */
  ghost predicate BatchShows(labels: Labels, tasks: seq<SpoolTask>, batch: seq<D.Rec>) {
    |batch| == |tasks| && forall i | 0 <= i < |tasks| ::
      Labelled(labels, batch[i].id, Some(Content(tasks[i].opts, tasks[i].enqueuedAt)))
  }

  /** Numbers yet to be given stand for nothing. */
  ghost predicate Unused(labels: Labels, nextId: nat) { forall id | id in labels :: id < nextId }

  lemma MemShowsMore(labels: Labels, queue: seq<BufferedTask>, ids: seq<nat>, id: nat, c: Option<Content>)
    requires MemShows(labels, queue, ids) && id !in labels
    ensures MemShows(labels[id := c], queue, ids)
  {
    forall i | 0 <= i < |ids| ensures Labelled(labels[id := c], ids[i], Some(ContentOf(queue[i]))) {
      assert Labelled(labels, ids[i], Some(ContentOf(queue[i])));
    }
  }

  lemma DiskShowsMore(labels: Labels, codec: Codec, recs: seq<Record>, l2: seq<D.Rec>, id: nat, c: Option<Content>)
    requires DiskShows(labels, codec, recs, l2) && id !in labels
    ensures DiskShows(labels[id := c], codec, recs, l2)
  {
    forall i | 0 <= i < |l2| ensures Labelled(labels[id := c], l2[i].id, StoredContent(codec, recs[i].data)) {
      assert Labelled(labels, l2[i].id, StoredContent(codec, recs[i].data));
    }
  }

  /** What Spool.Push leaves is what the push step leaves. */
  lemma PushShows(labels: Labels, codec: Codec, recs: seq<Record>, l2: seq<D.Rec>, rec: Record, id: nat, evicted: nat,
                  stored: bool, recs': seq<Record>, l2': seq<D.Rec>)
    requires DiskShows(labels, codec, recs, l2) && evicted <= |recs|
    requires stored ==> Labelled(labels, id, StoredContent(codec, rec.data))
    requires recs' == if stored then recs[evicted..] + [rec] else recs[evicted..]
    requires l2' == if stored then l2[evicted..] + [D.Rec(rec.no, id)] else l2[evicted..]
    ensures DiskShows(labels, codec, recs', l2')
  {
    forall i | 0 <= i < |l2'|
      ensures l2'[i].no == recs'[i].no && Labelled(labels, l2'[i].id, StoredContent(codec, recs'[i].data))
    {
      if evicted + i < |l2| { assert l2'[i] == l2[evicted + i] && recs'[i] == recs[evicted + i]; }
    }
  }

  lemma MemShowsSplit(labels: Labels, queue: seq<BufferedTask>, ids: seq<nat>, n: nat)
    requires MemShows(labels, queue, ids) && n <= |queue|
    ensures MemShows(labels, queue[..n], ids[..n]) && MemShows(labels, queue[n..], ids[n..])
  {
    forall i | 0 <= i < |ids| - n ensures Labelled(labels, ids[n..][i], Some(ContentOf(queue[n..][i]))) {
      assert Labelled(labels, ids[n + i], Some(ContentOf(queue[n + i])));
    }
  }

  lemma MemShowsJoin(labels: Labels, q: seq<BufferedTask>, ids: seq<nat>, q': seq<BufferedTask>, ids': seq<nat>)
    requires MemShows(labels, q, ids) && MemShows(labels, q', ids')
    ensures MemShows(labels, q + q', ids + ids')
  {
    forall i | 0 <= i < |ids + ids'| ensures Labelled(labels, (ids + ids')[i], Some(ContentOf((q + q')[i]))) {
      if i >= |ids| { assert Labelled(labels, ids'[i - |ids|], Some(ContentOf(q'[i - |ids|]))); }
    }
  }

  lemma {:induction false} RemoveAt(q: seq<D.Rec>, no: int, at: nat)
    requires at <= |q| && (at < |q| ==> q[at].no == no) && forall i | 0 <= i < at :: q[i].no != no
    ensures D.Remove(q, no) == if at < |q| then Without(q, at) else q
  {
    if at > 0 { RemoveAt(q[1..], no, at - 1); }
  }

  lemma WithoutShows(labels: Labels, codec: Codec, recs: seq<Record>, l2: seq<D.Rec>, at: nat)
    requires DiskShows(labels, codec, recs, l2) && at < |recs|
    ensures DiskShows(labels, codec, Without(recs, at), Without(l2, at))
  {
    var recs', l2' := Without(recs, at), Without(l2, at);
    forall i | 0 <= i < |l2'|
      ensures l2'[i].no == recs'[i].no && Labelled(labels, l2'[i].id, StoredContent(codec, recs'[i].data))
    {
      assert l2'[i] == l2[Origin(at, i)] && recs'[i] == recs[Origin(at, i)];
    }
  }

  /** What Spool.Ack leaves is what the ack step leaves, also of a record that is gone already. */
  lemma AckShows(labels: Labels, codec: Codec, recs: seq<Record>, l2: seq<D.Rec>, no: int, at: nat, ok: bool,
                 recs': seq<Record>)
    requires DiskShows(labels, codec, recs, l2)
    requires at <= |recs| && (at < |recs| ==> recs[at].no == no) && forall i | 0 <= i < at :: recs[i].no != no
    requires recs' == if ok && at < |recs| then Without(recs, at) else recs
    ensures DiskShows(labels, codec, recs', if ok then D.Remove(l2, no) else l2)
  {
    if ok {
      RemoveAt(l2, no, at);
      if at < |recs| { WithoutShows(labels, codec, recs, l2, at); }
    }
  }
}
