/** Routing parcel rows into the buffered parcel channels of the groups,
    shared by both parcel loaders. A channel is its capacity and what it
    currently buffers; a send to a full channel with no receiver running
    blocks forever, reported here as BufferFull. */
module Channels {
  import opened Wrappers
  import opened Tables

  datatype Channel<P> = Channel(capacity: nat, items: seq<P>)

  type Channels<P> = seq<Option<Channel<P>>>

  /** Reads a data row (its cells and its row number) into the group id it
      names and the parcel it describes, or the reason it cannot. */
  type RowParser<P> = (seq<string>, nat) -> Result<(int, P), LoadError>

  /** No channel buffers more than its capacity. */
  ghost predicate WithinCapacity<P>(chans: Channels<P>) {
    forall s :: 0 <= s < |chans| && chans[s].Some? ==> |chans[s].value.items| <= chans[s].value.capacity
  }

  /** `pool[key-1].Parcels <- p` for row `i`: the slot must exist, be
      non-nil and have room. */
  function Send<P>(chans: Channels<P>, i: nat, key: int, p: P): (r: Result<Channels<P>, LoadError>)
    ensures !(1 <= key <= |chans|) ==> r == Failure(IdOutOfRange(i, key))
    ensures 1 <= key <= |chans| && chans[key - 1].None? ==> r == Failure(NoSuchGroup(i, key))
    ensures 1 <= key <= |chans| && chans[key - 1].Some? ==>
      (r.Success? <==> |chans[key - 1].value.items| < chans[key - 1].value.capacity)
    ensures r.Failure? ==> r.error in {IdOutOfRange(i, key), NoSuchGroup(i, key), BufferFull(i, key)}
    ensures r.Success? ==>
      && |r.value| == |chans|
      && (forall s :: 0 <= s < |chans| && s != key - 1 ==> r.value[s] == chans[s])
      && r.value[key - 1] == Some(chans[key - 1].value.(items := chans[key - 1].value.items + [p]))
  {
    if !(1 <= key <= |chans|) then Failure(IdOutOfRange(i, key))
    else match chans[key - 1]
      case None => Failure(NoSuchGroup(i, key))
      case Some(ch) =>
        if |ch.items| >= ch.capacity then Failure(BufferFull(i, key))
        else Success(chans[key - 1 := Some(ch.(items := ch.items + [p]))])
  }

  /** Rows `lo` .. `hi - 1` all parse. */
  ghost predicate RowsParse<P>(table: Table, lo: nat, hi: nat, parse: RowParser<P>)
    requires hi <= |table|
  {
    forall i :: lo <= i < hi ==> parse(table[i], i).Success?
  }

  /** The parcels of rows `lo` .. `hi - 1` addressed to group id `key`, in
      row order. */
  ghost function Routed<P>(table: Table, lo: nat, hi: nat, key: int, parse: RowParser<P>): (ps: seq<P>)
    requires hi <= |table| && RowsParse(table, lo, hi, parse)
    ensures |ps| <= if lo <= hi then hi - lo else 0
    decreases hi
  {
    if hi <= lo then []
    else
      var (k, p) := parse(table[hi - 1], hi - 1).value;
      Routed(table, lo, hi - 1, key, parse) + (if k == key then [p] else [])
  }

  /** Rows `lo` .. `hi - 1` can all be sent: they parse, name an existing
      group, and no group receives more than its channel has room for. */
  ghost predicate Deliverable<P>(chans: Channels<P>, table: Table, lo: nat, hi: nat, parse: RowParser<P>)
    requires hi <= |table|
  {
    && RowsParse(table, lo, hi, parse)
    && (forall i :: lo <= i < hi ==>
          1 <= parse(table[i], i).value.0 <= |chans| && chans[parse(table[i], i).value.0 - 1].Some?)
    && (forall s :: 0 <= s < |chans| && chans[s].Some? ==>
          |chans[s].value.items| + |Routed(table, lo, hi, s + 1, parse)| <= chans[s].value.capacity)
  }

  /** The channels once rows `lo` .. `hi - 1` have been sent. */
  ghost function Delivered<P>(chans: Channels<P>, table: Table, lo: nat, hi: nat, parse: RowParser<P>): (out: Channels<P>)
    requires hi <= |table| && RowsParse(table, lo, hi, parse)
    ensures |out| == |chans|
  {
    seq(|chans|, s requires 0 <= s < |chans| =>
      if chans[s].None? then None
      else Some(chans[s].value.(items := chans[s].value.items + Routed(table, lo, hi, s + 1, parse))))
  }

  /** Read row `i` and send its parcel to the group it names. */
  function SendRow<P>(chans: Channels<P>, table: Table, i: nat, parse: RowParser<P>): (r: Result<Channels<P>, LoadError>)
    requires i < |table|
    ensures parse(table[i], i).Failure? ==> r == Failure(parse(table[i], i).error)
    ensures parse(table[i], i).Success? ==>
      r == Send(chans, i, parse(table[i], i).value.0, parse(table[i], i).value.1)
  {
    match parse(table[i], i)
    case Failure(e) => Failure(e)
    case Success((key, p)) => Send(chans, i, key, p)
  }

  /** The fault row `i` raises after rows `lo` .. `i - 1` went through. */
  ghost function RowError<P>(chans: Channels<P>, table: Table, lo: nat, i: nat, parse: RowParser<P>): Option<LoadError>
    requires i < |table| && RowsParse(table, lo, i, parse)
  {
    var r := SendRow(Delivered(chans, table, lo, i, parse), table, i, parse);
    if r.Failure? then Some(r.error) else None
  }

  /** The parcels routed to a group only grow as rows are added. */
  lemma {:induction false} RoutedGrows<P>(table: Table, lo: nat, hi: nat, hi': nat, key: int, parse: RowParser<P>)
    requires hi <= hi' <= |table| && RowsParse(table, lo, hi', parse)
    ensures |Routed(table, lo, hi, key, parse)| <= |Routed(table, lo, hi', key, parse)|
    decreases hi' - hi
  {
    if hi < hi' {
      RoutedGrows(table, lo, hi, hi' - 1, key, parse);
    }
  }

  /** Whatever can be delivered can be delivered in part. */
  lemma DeliverablePrefix<P>(chans: Channels<P>, table: Table, lo: nat, hi: nat, hi': nat, parse: RowParser<P>)
    requires hi <= hi' <= |table| && Deliverable(chans, table, lo, hi', parse)
    ensures Deliverable(chans, table, lo, hi, parse)
  {
    forall s | 0 <= s < |chans| && chans[s].Some?
      ensures |chans[s].value.items| + |Routed(table, lo, hi, s + 1, parse)| <= chans[s].value.capacity
    {
      RoutedGrows(table, lo, hi, hi', s + 1, parse);
    }
  }

  /** Whatever cannot be delivered cannot be delivered with more rows. */
  lemma NotDeliverableBeyond<P>(chans: Channels<P>, table: Table, lo: nat, hi: nat, parse: RowParser<P>)
    requires hi <= |table| && !Deliverable(chans, table, lo, hi, parse)
    ensures !Deliverable(chans, table, lo, |table|, parse)
  {
    if Deliverable(chans, table, lo, |table|, parse) {
      DeliverablePrefix(chans, table, lo, hi, |table|, parse);
    }
  }

  /** One more row appends its parcel to the group it names. */
  lemma RoutedStep<P>(table: Table, lo: nat, i: nat, parse: RowParser<P>, key: int, p: P)
    requires lo <= i < |table| && RowsParse(table, lo, i + 1, parse) && parse(table[i], i).value == (key, p)
    ensures forall k :: Routed(table, lo, i + 1, k, parse) == Routed(table, lo, i, k, parse) + (if key == k then [p] else [])
  {
    assert RowsParse(table, lo, i, parse);
  }

  /** Sending row `i` after rows `lo` .. `i - 1` leaves the channels as
      delivering rows `lo` .. `i` says. */
  lemma SendDelivers<P>(chans: Channels<P>, table: Table, lo: nat, i: nat, parse: RowParser<P>, key: int, p: P)
    requires lo <= i < |table| && RowsParse(table, lo, i + 1, parse) && parse(table[i], i).value == (key, p)
    requires Send(Delivered(chans, table, lo, i, parse), i, key, p).Success?
    ensures Send(Delivered(chans, table, lo, i, parse), i, key, p) == Success(Delivered(chans, table, lo, i + 1, parse))
  {
    assert RowsParse(table, lo, i, parse);
    RoutedStep(table, lo, i, parse, key, p);
    var r := Send(Delivered(chans, table, lo, i, parse), i, key, p).value;
    var next := Delivered(chans, table, lo, i + 1, parse);
    forall s | 0 <= s < |chans|
      ensures r[s] == next[s]
    {
      if chans[s].Some? {
        var items := chans[s].value.items;
        var before := Routed(table, lo, i, s + 1, parse);
        if s == key - 1 {
          assert items + before + [p] == items + (before + [p]);
        } else {
          assert before + [] == before;
        }
      }
    }
    assert r == next;
  }

  /** Sending row `i` succeeds exactly when one more row is deliverable. */
  lemma StepDeliverable<P>(chans: Channels<P>, table: Table, lo: nat, i: nat, parse: RowParser<P>)
    requires lo <= i < |table| && Deliverable(chans, table, lo, i, parse)
    ensures RowError(chans, table, lo, i, parse).None? <==> Deliverable(chans, table, lo, i + 1, parse)
  {
    var d := Delivered(chans, table, lo, i, parse);
    var sent := SendRow(d, table, i, parse);
    if parse(table[i], i).Failure? {
      assert !RowsParse(table, lo, i + 1, parse);
      assert sent.Failure?;
    } else {
      var (key, p) := parse(table[i], i).value;
      assert RowsParse(table, lo, i + 1, parse);
      RoutedStep(table, lo, i, parse, key, p);
      if !(1 <= key <= |chans|) || chans[key - 1].None? {
        assert sent.Failure?;
        assert !Deliverable(chans, table, lo, i + 1, parse) by {
          assert lo <= i < i + 1;
        }
      } else {
        var ch := chans[key - 1].value;
        var before := Routed(table, lo, i, key, parse);
        assert d[key - 1] == Some(ch.(items := ch.items + before));
        assert |Routed(table, lo, i + 1, key, parse)| == |before| + 1;
        if |ch.items| + |before| < ch.capacity {
          assert sent.Success?;
          forall s | 0 <= s < |chans| && chans[s].Some?
            ensures |chans[s].value.items| + |Routed(table, lo, i + 1, s + 1, parse)| <= chans[s].value.capacity
          {
            if s != key - 1 {
              assert Routed(table, lo, i + 1, s + 1, parse) == Routed(table, lo, i, s + 1, parse) + [];
            }
          }
          assert Deliverable(chans, table, lo, i + 1, parse);
        } else {
          assert sent.Failure?;
          assert !Deliverable(chans, table, lo, i + 1, parse) by {
            assert 0 <= key - 1 < |chans| && chans[key - 1].Some?;
            assert |ch.items| + |Routed(table, lo, i + 1, key - 1 + 1, parse)| > ch.capacity;
          }
        }
      }
    }
  }

  /** Before any row is sent every channel is as it was. */
  lemma NothingDelivered<P>(chans: Channels<P>, table: Table, lo: nat, i: nat, parse: RowParser<P>)
    requires i <= lo && i <= |table|
    ensures RowsParse(table, lo, i, parse)
    ensures Delivered(chans, table, lo, i, parse) == chans
  {
    var d := Delivered(chans, table, lo, i, parse);
    forall s | 0 <= s < |chans|
      ensures d[s] == chans[s]
    {
      if chans[s].Some? {
        assert chans[s].value.items + [] == chans[s].value.items;
      }
    }
  }

  /** Sending row `i` after rows `lo` .. `i - 1` succeeds exactly when one
      more row is deliverable, and then delivers it. */
  lemma RowStep<P>(chans: Channels<P>, cur: Channels<P>, table: Table, lo: nat, i: nat, parse: RowParser<P>)
    requires lo <= i < |table| && Deliverable(chans, table, lo, i, parse)
    requires cur == Delivered(chans, table, lo, i, parse)
    ensures SendRow(cur, table, i, parse).Success? <==> Deliverable(chans, table, lo, i + 1, parse)
    ensures SendRow(cur, table, i, parse).Success? ==> SendRow(cur, table, i, parse).value == Delivered(chans, table, lo, i + 1, parse)
    ensures SendRow(cur, table, i, parse).Failure? ==> RowError(chans, table, lo, i, parse) == Some(SendRow(cur, table, i, parse).error)
  {
    StepDeliverable(chans, table, lo, i, parse);
    if SendRow(cur, table, i, parse).Success? {
      var (key, p) := parse(table[i], i).value;
      SendDelivers(chans, table, lo, i, parse, key, p);
    }
  }

  /** Send row `i` once rows `lo` .. `i - 1` went through. */
  method DeliverNext<P>(chans: Channels<P>, cur: Channels<P>, table: Table, lo: nat, i: nat, parse: RowParser<P>)
    returns (sent: Result<Channels<P>, LoadError>)
    requires lo <= i < |table| && Deliverable(chans, table, lo, i, parse)
    requires cur == Delivered(chans, table, lo, i, parse)
    ensures sent.Success? ==> Deliverable(chans, table, lo, i + 1, parse)
    ensures sent.Success? ==> sent.value == Delivered(chans, table, lo, i + 1, parse)
    ensures sent.Failure? ==> !Deliverable(chans, table, lo, |table|, parse)
    ensures sent.Failure? ==> RowError(chans, table, lo, i, parse) == Some(sent.error)
  {
    RowStep(chans, cur, table, lo, i, parse);
    sent := SendRow(cur, table, i, parse);
    if sent.Failure? {
      NotDeliverableBeyond(chans, table, lo, i + 1, parse);
    }
  }

  /** Send the parcel of every row from `i` on, rows `lo` .. `i - 1` having
      gone through already. */
  method DeliverFrom<P>(chans: Channels<P>, cur: Channels<P>, table: Table, lo: nat, i: nat, parse: RowParser<P>)
    returns (r: Result<Channels<P>, LoadError>)
    requires lo <= i <= |table| && Deliverable(chans, table, lo, i, parse)
    requires cur == Delivered(chans, table, lo, i, parse)
    ensures r.Success? <==> Deliverable(chans, table, lo, |table|, parse)
    ensures r.Success? ==> r.value == Delivered(chans, table, lo, |table|, parse)
    ensures r.Failure? ==> exists k ::
      && lo <= k < |table|
      && Deliverable(chans, table, lo, k, parse)
      && RowError(chans, table, lo, k, parse) == Some(r.error)
    decreases |table| - i
  {
    if i == |table| {
      return Success(cur);
    }
    var sent := DeliverNext(chans, cur, table, lo, i, parse);
    if sent.Failure? {
      return Failure(sent.error);
    }
    r := DeliverFrom(chans, sent.value, table, lo, i + 1, parse);
  }

  /** Send the parcel of every row from `lo` on, in row order, stopping at
      the first row that cannot be read or sent. */
  method DeliverRows<P>(chans: Channels<P>, table: Table, lo: nat, parse: RowParser<P>)
    returns (r: Result<Channels<P>, LoadError>)
    requires WithinCapacity(chans)
    ensures r.Success? <==> Deliverable(chans, table, lo, |table|, parse)
    ensures r.Success? ==> r.value == Delivered(chans, table, lo, |table|, parse)
    ensures r.Failure? ==> exists i ::
      && lo <= i < |table|
      && Deliverable(chans, table, lo, i, parse)
      && RowError(chans, table, lo, i, parse) == Some(r.error)
  {
    var start := if lo <= |table| then lo else |table|;
    NothingDelivered(chans, table, lo, start, parse);
    assert Deliverable(chans, table, lo, start, parse);
    if |table| <= lo {
      return Success(chans);
    }
    r := DeliverFrom(chans, chans, table, lo, lo, parse);
  }
}
