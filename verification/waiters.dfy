/** Blocked readers and their wake-up: one channel of capacity 1 per waiter. */
module Waiters {
  import opened Sets

  /** `chan struct{}` of capacity 1. */
  class Channel {
    var token: bool
    var closed: bool

    constructor ()
      ensures !token && !closed
    {
      token, closed := false, false;
    }

    /** `select { case ch <- struct{}{}: default: }`; sending on a closed channel would panic. */
    method TrySend() returns (sent: bool)
      requires !closed
      modifies `token
      ensures token && sent == !old(token)
    {
      sent := !token;
      token := true;
    }

    /** `close(ch)`; closing a closed channel would panic. */
    method CloseChannel()
      requires !closed
      modifies `closed
      ensures closed
    {
      closed := true;
    }
  }

  /** The source's variadic minimum. */
  method Min(values: seq<int>) returns (m: int)
    requires |values| > 0
    ensures m in values && forall i :: 0 <= i < |values| ==> m <= values[i]
  {
    m := values[0];
    for i := 1 to |values|
      invariant m in values && forall j :: 0 <= j < i ==> m <= values[j]
    {
      if values[i] < m {
        m := values[i];
      }
    }
  }

  const MAX_WAITERS_PER_BATCH := 64
  const MAX_TOTAL_WAITERS := 1024

  /** How many of `waiting` readers a notification about `dataSize` items wakes. */
  function Woken(waiting: nat, dataSize: int): nat {
    if dataSize <= 0 then 0
    else
      var n: nat := if dataSize < MAX_WAITERS_PER_BATCH then dataSize else MAX_WAITERS_PER_BATCH;
      if n < waiting then n else waiting
  }

  /** How many of `waiting` readers a series of notifications wakes altogether. */
  function WokenBy(waiting: nat, sizes: seq<int>): nat
    decreases |sizes|
  {
    if sizes == [] then 0
    else Woken(waiting, sizes[0]) + WokenBy(waiting - Woken(waiting, sizes[0]), sizes[1..])
  }

  function Offered(sizes: seq<int>): nat {
    if sizes == [] then 0
    else
      var size := sizes[0];
      (if size <= 0 then 0 else if size < MAX_WAITERS_PER_BATCH then size else MAX_WAITERS_PER_BATCH)
      + Offered(sizes[1..])
  }

  /** A series of notifications wakes as many readers as it offers wake-ups, at most 64 each
      time, or all of them. */
  lemma {:induction false} WokenByIsOffered(waiting: nat, sizes: seq<int>)
    ensures WokenBy(waiting, sizes) == if Offered(sizes) < waiting then Offered(sizes) else waiting
    decreases |sizes|
  {
    if sizes != [] {
      WokenByIsOffered(waiting - Woken(waiting, sizes[0]), sizes[1..]);
    }
  }

  ghost function ToSet(s: seq<int>): set<int> {
    set i | 0 <= i < |s| :: s[i]
  }

  ghost predicate Distinct(s: seq<int>) {
    forall i, j :: 0 <= i < j < |s| ==> s[i] != s[j]
  }

  lemma {:induction false} DistinctSize(s: seq<int>)
    requires Distinct(s)
    ensures |ToSet(s)| == |s|
    decreases |s|
  {
    if s != [] {
      var s', x := s[..|s| - 1], s[|s| - 1];
      DistinctSize(s');
      ToSetAppend(s', x);
      assert s == s' + [x];
    }
  }

  lemma Contained(s: seq<int>, all: set<int>)
    requires forall i :: 0 <= i < |s| ==> s[i] in all
    ensures ToSet(s) <= all
  {
  }

  lemma ToSetAppend(s: seq<int>, x: int)
    ensures ToSet(s + [x]) == ToSet(s) + {x}
  {
    assert (s + [x])[|s|] == x;
    forall y | y in ToSet(s) ensures y in ToSet(s + [x]) {
      var i :| 0 <= i < |s| && s[i] == y;
      assert (s + [x])[i] == y;
    }
  }

  class WaiterManager {
    var ws: map<int, Channel>
    var pool: set<Channel>
    var currentID: int
    var closed: bool
    /** The waiters that have been woken, and those that have unregistered while waiting. */
    ghost var woken: set<int>
    ghost var left: set<int>

    ghost function Channels(): set<Channel>
      reads this
    {
      (set id | id in ws :: ws[id]) + pool
    }

    /** No channel is used twice, none in use or pooled holds a token, and before Close none is closed. */
    ghost predicate ChannelsValid()
      reads this, Channels()
    {
      && (forall i, j :: i in ws && j in ws && i != j ==> ws[i] != ws[j])
      && (forall id :: id in ws ==> ws[id] !in pool)
      && (forall ch :: ch in Channels() ==> !ch.token && (ch.closed ==> closed))
    }

    /** Every waiter registered so far is either waiting, or was woken, or has left, and only one of these. */
    ghost predicate IdsValid()
      reads this
    {
      && currentID >= 0
      && (forall id :: id in ws || id in woken || id in left <==> 1 <= id <= currentID)
      && (forall id :: id in ws ==> id !in woken && id !in left)
      && (forall id :: id in woken ==> id !in left)
    }

    ghost predicate Valid()
      reads this, Channels()
    {
      ChannelsValid() && IdsValid()
    }

    constructor ()
      ensures Valid() && ws == map[] && pool == {} && !closed && woken == {} && left == {}
    {
      ws, pool, currentID, closed := map[], {}, 0, false;
      woken, left := {}, {};
    }

    /** `pool.Get()`: any pooled channel, or a new one. */
    method PoolGet() returns (ch: Channel)
      requires ChannelsValid()
      modifies `pool
      ensures ChannelsValid() && ch !in Channels() && !ch.token && (ch.closed ==> closed)
      ensures (fresh(ch) && pool == old(pool)) || (ch in old(pool) && pool == old(pool) - {ch})
    {
      if * {
        if c :| c in pool {
          pool := pool - {c};
          return c;
        }
      }
      ch := new Channel();
    }

    /** A new waiter under a number never used before, with an empty channel of its own. */
    method Register() returns (id: int, ch: Channel)
      requires Valid()
      modifies this
      ensures Valid() && id == old(currentID) + 1 == currentID && id !in old(ws)
      ensures ws == old(ws)[id := ch] && (forall i :: i in old(ws) ==> old(ws)[i] != ch)
      ensures (fresh(ch) || ch in old(pool)) && pool <= old(pool)
      ensures !ch.token && (ch.closed ==> closed)
      ensures closed == old(closed) && woken == old(woken) && left == old(left)
    {
      id := currentID + 1;
      ch := PoolGet();
      currentID := id;
      ws := ws[id := ch];
    }

    /** A waiter that is still waiting leaves; of one that was woken or has left, nothing is known. */
    method Unregister(id: int)
      requires Valid()
      modifies this
      ensures Valid() && ws == old(ws) - {id} && woken == old(woken)
      ensures pool == old(pool) + if id in old(ws) then {old(ws)[id]} else {}
      ensures left == old(left) + if id in old(ws) then {id} else {}
      ensures closed == old(closed) && currentID == old(currentID)
    {
      if id !in ws {
        return;
      }
      pool := pool + {ws[id]};
      ws := ws - {id};
      left := left + {id};
    }

    /** The range loop over `ws`, in whatever order it goes: `n` waiters, or all if there are fewer. */
    method Collect(n: int) returns (batch: seq<Channel>, ids: seq<int>)
      requires n > 0
      ensures |batch| == |ids| == if n < |ws| then n else |ws|
      ensures Distinct(ids) && forall i :: 0 <= i < |ids| ==> ids[i] in ws && batch[i] == ws[ids[i]]
    {
      batch, ids := [], [];
      ghost var seen: set<int> := {};
      while |ids| < |ws|
        invariant |batch| == |ids| == |seen| <= |ws| && |ids| < n && seen == ToSet(ids) && seen <= ws.Keys
        invariant Distinct(ids) && forall i :: 0 <= i < |ids| ==> ids[i] in ws && batch[i] == ws[ids[i]]
        decreases |ws| - |ids|
      {
        Unseen(ws, seen);
        var id :| id in ws && id !in ids;
        batch := batch + [ws[id]];
        ToSetAppend(ids, id);
        ids := ids + [id];
        seen := seen + {id};
        if |batch| >= n {
          break;
        }
      }
    }

    /** One non-blocking send to each channel of the batch. All of them are empty and open, so
        every send succeeds. */
    method SendAll(batch: seq<Channel>, remaining: int) returns (rest: int)
      requires forall i :: 0 <= i < |batch| ==> !batch[i].token && !batch[i].closed
      requires forall i, j :: 0 <= i < j < |batch| ==> batch[i] != batch[j]
      modifies (set i | 0 <= i < |batch| :: batch[i])`token
      ensures rest == remaining - |batch| && forall i :: 0 <= i < |batch| ==> batch[i].token
    {
      rest := remaining;
      for i := 0 to |batch|
        invariant rest == remaining - i
        invariant forall j :: 0 <= j < |batch| ==> batch[j].token == (j < i)
      {
        var sent := batch[i].TrySend();
        if sent {
          rest := rest - 1;
        }
      }
    }

    method DeleteAll(ids: seq<int>)
      modifies `ws
      ensures ws == old(ws) - ToSet(ids)
    {
      for i := 0 to |ids|
        invariant ws == old(ws) - ToSet(ids[..i])
      {
        ws := ws - {ids[i]};
        ToSetAppend(ids[..i], ids[i]);
        assert ids[..i + 1] == ids[..i] + [ids[i]];
      }
      assert ids[..|ids|] == ids;
    }

    /** Sends to the chosen waiters; the other channels stay as they are. */
    method SendTo(batch: seq<Channel>, ids: seq<int>, remaining: int) returns (rest: int)
      requires ChannelsValid() && !closed && |batch| == |ids| && Distinct(ids)
      requires forall i :: 0 <= i < |ids| ==> ids[i] in ws && batch[i] == ws[ids[i]]
      modifies Channels()`token
      ensures rest == remaining - |ids|
      ensures forall id :: id in ws ==> ws[id].token == (id in ToSet(ids))
      ensures forall ch :: ch in pool ==> !ch.token
    {
      BatchReady(batch, ids);
      rest := SendAll(batch, remaining);
    }

    /** Waiters that have been sent a token and dropped from `ws` leave a valid rest behind. */
    twostate lemma ChannelsKept(chosen: set<int>)
      requires old(ChannelsValid()) && ws == old(ws) - chosen && pool == old(pool) && closed == old(closed)
      requires forall ch :: ch in old(Channels()) ==> ch.closed == old(ch.closed)
      requires forall id :: id in old(ws) && id !in chosen ==> !old(ws)[id].token
      requires forall ch :: ch in pool ==> !ch.token
      ensures ChannelsValid()
    {
    }

    twostate lemma IdsMoved(chosen: set<int>)
      requires old(IdsValid()) && ws == old(ws) - chosen && woken == old(woken) + chosen && chosen <= old(ws).Keys
      requires left == old(left) && currentID == old(currentID)
      ensures IdsValid()
    {
    }

    /** The chosen waiters move from the waiting to the woken ones. */
    method Dismiss(ids: seq<int>)
      requires IdsValid() && Distinct(ids) && forall i :: 0 <= i < |ids| ==> ids[i] in ws
      modifies `ws, `woken
      ensures IdsValid() && ToSet(ids) <= old(ws).Keys && |ws| == |old(ws)| - |ids|
      ensures ws == old(ws) - ToSet(ids) && woken == old(woken) + ToSet(ids)
    {
      hide IdsValid, ToSet, Distinct;
      DeleteAll(ids);
      woken := woken + ToSet(ids);
      Contained(ids, old(ws).Keys);
      IdsMoved(ToSet(ids));
      DistinctSize(ids);
      WithoutSize(old(ws), ToSet(ids));
    }

    /** The `chosen` waiters, and only they, have a token and are forgotten. */
    ghost predicate Notified(before: map<int, Channel>, wokenBefore: set<int>, chosen: set<int>)
      reads this, set id | id in before :: before[id]
    {
      && chosen <= before.Keys && ws == before - chosen && woken == wokenBefore + chosen
      && (forall id :: id in before ==> before[id].token == (id in chosen))
    }

    /** One round of the notification loop. */
    method Round(remaining: int, deleted: seq<int>) returns (rest: int, shouldDelete: seq<int>)
      requires Valid() && !closed && 0 < remaining <= MAX_TOTAL_WAITERS && deleted == []
      modifies `ws, `woken, Channels()`token
      ensures Valid() && Distinct(shouldDelete) && Notified(old(ws), old(woken), ToSet(shouldDelete))
      ensures |shouldDelete| == if remaining < |old(ws)| then remaining else |old(ws)|
      ensures rest == remaining - |shouldDelete| && (|ws| == 0 <==> |shouldDelete| == |old(ws)|)
    {
      hide ChannelsValid, IdsValid, ToSet, Distinct;
      var batchSize := Smaller(MAX_TOTAL_WAITERS, remaining);
      var batch, ids := Collect(batchSize);
      shouldDelete := deleted + ids;
      assert shouldDelete == ids;
      rest := SendTo(batch, ids, remaining);
      Dismiss(shouldDelete);
      ChannelsKept(ToSet(ids));
    }

    /** Wakes min(64, dataSize, number of waiters) waiters, whichever ones, each with a token in
        its channel, and forgets them; all others, and a closed manager, stay as they are. */
    method Notify(dataSize: int) returns (ghost chosen: set<int>)
      requires Valid()
      modifies `ws, `woken, Channels()`token
      ensures Valid() && Notified(old(ws), old(woken), chosen)
      ensures |chosen| == if closed then 0 else Woken(|old(ws)|, dataSize)
      ensures closed || dataSize <= 0 ==> |chosen| == 0
      ensures !closed && dataSize > 0 ==>
        var offered := if dataSize < 64 then dataSize else 64;
        |chosen| == if offered < |old(ws)| then offered else |old(ws)|
    {
      hide ChannelsValid, IdsValid, Notified;
      chosen := {};
      NobodyNotified();
      if |ws| == 0 || closed {
        return;
      }
      var totalToNotify := Smallest(MAX_WAITERS_PER_BATCH, dataSize, MAX_TOTAL_WAITERS);
      if totalToNotify <= 0 {
        return;
      }
      chosen := Rounds(totalToNotify);
    }

    lemma NobodyNotified()
      requires ChannelsValid()
      ensures Notified(ws, woken, {})
    {
    }

    /** The channels of the waiters woken since `before` are neither waited on nor pooled. */
    ghost predicate Forgotten(before: map<int, Channel>, chosen: set<int>)
      reads this
    {
      chosen <= before.Keys && forall id :: id in chosen ==> before[id] !in Channels()
    }

    /** Two notifications in a row. */
    twostate lemma NotifiedAgain(
      before: map<int, Channel>, new wokenBefore: set<int>, new chosen: set<int>, new now: set<int>)
      requires old(Notified(before, wokenBefore, chosen))
      requires Notified(old(ws), old(woken), now)
      requires forall id :: id in chosen ==> unchanged(before[id])
      ensures Notified(before, wokenBefore, chosen + now)
    {
      assert before - chosen - now == before - (chosen + now);
    }

    twostate lemma ForgottenAgain(before: map<int, Channel>, new chosen: set<int>, new now: set<int>)
      requires old(ChannelsValid()) && old(Forgotten(before, chosen)) && pool == old(pool)
      requires old(ws) == before - chosen && now <= old(ws).Keys && ws == old(ws) - now
      ensures Forgotten(before, chosen + now) && Channels() <= old(Channels())
      ensures |chosen + now| == |chosen| + |now| && |ws| == |old(ws)| - |now|
    {
      WithoutSize(old(ws), now);
      assert chosen !! now;
    }

    twostate lemma BothAgain(
      before: map<int, Channel>, new wokenBefore: set<int>, new chosen: set<int>, new now: set<int>)
      requires old(ChannelsValid()) && old(Forgotten(before, chosen)) && pool == old(pool)
      requires old(Notified(before, wokenBefore, chosen))
      requires Notified(old(ws), old(woken), now)
      requires forall id :: id in chosen ==> unchanged(before[id])
      ensures Notified(before, wokenBefore, chosen + now) && Forgotten(before, chosen + now)
      ensures Channels() <= old(Channels())
      ensures |chosen + now| == |chosen| + |now| && |ws| == |old(ws)| - |now|
    {
      hide ChannelsValid;
      ForgottenAgain(before, chosen, now);
      NotifiedAgain(before, wokenBefore, chosen, now);
    }

    /** One more notification after some have woken the `chosen` waiters. */
    method NotifyMore(dataSize: int, ghost before: map<int, Channel>, ghost wokenBefore: set<int>,
                      ghost chosen: set<int>)
      returns (ghost all: set<int>)
      requires Valid() && Notified(before, wokenBefore, chosen) && Forgotten(before, chosen)
      modifies `ws, `woken, Channels()`token
      ensures Valid() && Notified(before, wokenBefore, all) && Forgotten(before, all)
      ensures Channels() <= old(Channels())
      ensures |all| == |chosen| + if closed then 0 else Woken(|old(ws)|, dataSize)
      ensures |all| + |ws| == |chosen| + |old(ws)|
    {
      hide ChannelsValid, IdsValid, Notified;
      ghost var now := Notify(dataSize);
      all := chosen + now;
      BothAgain(before, wokenBefore, chosen, now);
    }

    /** A series of notifications: altogether they wake as many waiters as they offer wake-ups, at
        most 64 each time, or all of them. None is woken twice, as who has been woken is forgotten,
        and the others wait on. */
    method NotifyEach(sizes: seq<int>) returns (ghost chosen: set<int>)
      requires Valid()
      modifies `ws, `woken, Channels()`token
      ensures Valid() && Notified(old(ws), old(woken), chosen)
      ensures |chosen| == if closed then 0 else if Offered(sizes) < |old(ws)| then Offered(sizes) else |old(ws)|
    {
      hide ChannelsValid, IdsValid, Notified;
      ghost var before, wokenBefore := ws, woken;
      chosen := {};
      NobodyNotified();
      for i := 0 to |sizes|
        invariant Valid() && Notified(before, wokenBefore, chosen) && Forgotten(before, chosen)
        invariant Channels() <= old(Channels())
        invariant closed ==> |chosen| == 0
        invariant !closed ==> |chosen| + WokenBy(|ws|, sizes[i..]) == WokenBy(|before|, sizes)
      {
        assert sizes[i..][1..] == sizes[i + 1..];
        chosen := NotifyMore(sizes[i], before, wokenBefore, chosen);
      }
      WokenByIsOffered(|before|, sizes);
    }

    /** The notification loop: since every send succeeds it ends after one round. */
    method Rounds(totalToNotify: int) returns (ghost chosen: set<int>)
      requires Valid() && !closed && 0 < totalToNotify <= MAX_TOTAL_WAITERS
      modifies `ws, `woken, Channels()`token
      ensures Valid() && Notified(old(ws), old(woken), chosen)
      ensures |chosen| == if totalToNotify < |old(ws)| then totalToNotify else |old(ws)|
    {
      hide ChannelsValid, IdsValid, ToSet, Distinct;
      chosen := {};
      var shouldDelete: seq<int> := [];
      var remaining := totalToNotify;
      while remaining > 0
        invariant remaining > 0 ==> remaining == totalToNotify && shouldDelete == []
        invariant remaining > 0 ==> Valid() && ws == old(ws) && woken == old(woken)
        invariant remaining > 0 ==> forall ch :: ch in Channels() ==> unchanged(ch)
        invariant remaining <= 0 ==> Valid() && Notified(old(ws), old(woken), chosen)
        invariant remaining <= 0 ==> |chosen| == totalToNotify <= |old(ws)|
        decreases remaining
      {
        remaining, shouldDelete := Round(remaining, shouldDelete);
        chosen := ToSet(shouldDelete);
        DistinctSize(shouldDelete);
        if |ws| == 0 {
          break;
        }
      }
    }

    /** Closes the channels of all waiters, in whatever order. Closing one that a previous Close
        has closed panics; that is possible exactly when such a channel is in use again. */
    method Close() returns (panicked: bool)
      requires Valid()
      modifies `closed, Channels()`closed
      ensures Valid() && closed
      ensures panicked == exists id :: id in ws && old(ws[id].closed)
      ensures panicked ==> old(closed)
      ensures !panicked ==> forall id :: id in ws ==> ws[id].closed
      ensures forall ch :: ch in pool ==> ch.closed == old(ch.closed)
    {
      closed := true;
      panicked := CloseAll();
    }

    method CloseAll() returns (panicked: bool)
      requires ChannelsValid() && closed
      modifies Channels()`closed
      ensures ChannelsValid() && panicked == exists id :: id in ws && old(ws[id].closed)
      ensures !panicked ==> forall id :: id in ws ==> ws[id].closed
      ensures forall ch :: ch in pool ==> ch.closed == old(ch.closed)
    {
      panicked := false;
      var done: seq<int> := [];
      while |done| < |ws|
        invariant Distinct(done) && forall i :: 0 <= i < |done| ==> done[i] in ws && !old(ws[done[i]].closed)
        invariant forall id :: id in ws ==> ws[id].closed == (id in done || old(ws[id].closed))
        invariant forall ch :: ch in pool ==> ch.closed == old(ch.closed)
        decreases |ws| - |done|
      {
        DistinctSize(done);
        Unseen(ws, ToSet(done));
        var id :| id in ws && id !in done;
        if ws[id].closed {
          return true;
        }
        ws[id].CloseChannel();
        done := done + [id];
      }
      DistinctSize(done);
      AllSeen(ws, done);
    }

    /** A receive on some channel: it succeeds on a token, or because the channel is closed. One
        that still belongs to a waiter, or is pooled, yields nothing before Close. */
    method TryReceive(ch: Channel) returns (got: bool)
      requires Valid()
      modifies ch`token
      ensures Valid() && !ch.token && got == (old(ch.token) || ch.closed)
      ensures ch in Channels() && !closed ==> !got
    {
      got := ch.token || ch.closed;
      ch.token := false;
    }

    /** Which channels a batch touches, and that they can take a token. */
    lemma BatchReady(batch: seq<Channel>, ids: seq<int>)
      requires ChannelsValid() && !closed && |batch| == |ids| && Distinct(ids)
      requires forall i :: 0 <= i < |ids| ==> ids[i] in ws && batch[i] == ws[ids[i]]
      ensures forall i :: 0 <= i < |batch| ==> batch[i] in Channels() && !batch[i].token && !batch[i].closed
      ensures forall i, j :: 0 <= i < j < |batch| ==> batch[i] != batch[j]
      ensures forall id :: id in ws ==> (ws[id] in batch <==> id in ToSet(ids))
      ensures forall ch :: ch in pool ==> ch !in batch
    {
      forall id | id in ws ensures ws[id] in batch <==> id in ToSet(ids) {
        if id in ToSet(ids) {
          var i :| 0 <= i < |ids| && ids[i] == id;
          assert batch[i] == ws[id];
        }
        if ws[id] in batch {
          var i :| 0 <= i < |batch| && batch[i] == ws[id];
          assert ids[i] == id;
        }
      }
    }
  }

  method Smallest(a: int, b: int, c: int) returns (m: int)
    ensures m in [a, b, c] && m <= a && m <= b && m <= c
  {
    m := Min([a, b, c]);
    assert m <= [a, b, c][0] && m <= [a, b, c][1] && m <= [a, b, c][2];
  }

  method Smaller(a: int, b: int) returns (m: int)
    ensures m == if a < b then a else b
  {
    m := Min([a, b]);
    assert m <= [a, b][0] && m <= [a, b][1];
  }

  /** A second Close panics when a waiter registered before the first is still there. */
  method CloseTwice() returns (panicked: bool)
    ensures panicked
  {
    var w := new WaiterManager();
    var id, ch := w.Register();
    var first := w.Close();
    panicked := w.Close();
  }

  lemma AllSeen(ws: map<int, Channel>, ids: seq<int>)
    requires |ToSet(ids)| >= |ws| && forall i :: 0 <= i < |ids| ==> ids[i] in ws
    ensures forall id :: id in ws ==> id in ids
  {
    assert ws.Keys * ToSet(ids) == ToSet(ids);
    assert |ws.Keys - ToSet(ids)| == 0;
    forall id | id in ws ensures id in ids {
      assert id !in ws.Keys - ToSet(ids);
    }
  }

  lemma Unseen(ws: map<int, Channel>, seen: set<int>)
    requires |seen| < |ws| && seen <= ws.Keys
    ensures exists id :: id in ws && id !in seen
  {
    assert ws.Keys * seen == seen;
    assert |ws.Keys - seen| > 0;
    EmptyIff(ws.Keys - seen);
  }
}
