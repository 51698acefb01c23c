/** The TTL cache (onvif/cache.go:94-168). Get deletes what it finds expired and
    Cleanup sweeps; both are proved invisible by comparing with a table that
    never removes an expired entry. */
module TtlCache {
  import opened Options
  import opened Sequences

  /** Times are nanoseconds on one clock. */
  datatype Item<V> = Item(data: V, expiresAt: int)

  type Table<V> = map<string, Item<V>>

  /** now.After(expiresAt) is strict: an item is still there at its expiry time. */
  function Lookup<V>(items: Table<V>, key: string, now: int): Option<V> {
    if key in items && now <= items[key].expiresAt then Some(items[key].data) else None
  }

  /** Both tables answer every question alike from this time on. */
  ghost predicate Agree<V(!new)>(a: Table<V>, b: Table<V>, now: int) {
    forall key, t :: t >= now ==> Lookup(a, key, t) == Lookup(b, key, t)
  }

  class Cache<V(!new, ==)> {
    var items: Table<V>
    /** The same history with nothing ever removed for being expired. */
    ghost var ideal: Table<V>
    ghost var clock: int

    ghost predicate Valid()
      reads this
    {
      items.Keys <= ideal.Keys && Agree(items, ideal, clock)
    }

    constructor (now: int)
      ensures Valid() && ideal == map[] && clock == now
    {
      items, ideal, clock := map[], map[], now;
    }

    method Get(key: string, now: int) returns (r: Option<V>)
      requires Valid() && now >= clock
      modifies this
      ensures Valid() && clock == now && ideal == old(ideal)
      ensures r == Lookup(ideal, key, now)
    {
      clock := now;
      if key !in items {
        assert Lookup(items, key, now) == None;
        return None;
      }
      var item := items[key];
      if now > item.expiresAt {
        assert Lookup(items, key, now) == None;
        Forgettable(items, ideal, key, now);
        items := items - {key};
        return None;
      }
      assert Lookup(items, key, now) == Some(item.data);
      return Some(item.data);
    }

    method Set(key: string, data: V, ttl: int, now: int)
      requires Valid() && now >= clock
      modifies this
      ensures Valid() && clock == now
      ensures ideal == old(ideal)[key := Item(data, now + ttl)]
    {
      clock := now;
      Overwritten(items, ideal, key, Item(data, now + ttl), now);
      items := items[key := Item(data, now + ttl)];
      ideal := ideal[key := Item(data, now + ttl)];
    }

    method Delete(key: string, now: int)
      requires Valid() && now >= clock
      modifies this
      ensures Valid() && clock == now
      ensures ideal == old(ideal) - {key}
    {
      clock := now;
      Removed(items, ideal, key, now);
      items, ideal := items - {key}, ideal - {key};
    }

    method Clear(now: int)
      requires Valid() && now >= clock
      modifies this
      ensures Valid() && clock == now && ideal == map[]
    {
      items, ideal, clock := map[], map[], now;
    }

    method Cleanup(now: int)
      requires Valid() && now >= clock
      modifies this
      ensures Valid() && clock == now && ideal == old(ideal)
      ensures forall key :: key in items <==> key in old(items) && now <= old(items)[key].expiresAt
    {
      clock := now;
      var todo := items.Keys;
      while todo != {}
        invariant clock == now && ideal == old(ideal) && Valid()
        invariant items.Keys <= old(items).Keys
        invariant forall key | key in old(items) ::
          if key in todo then key in items && items[key] == old(items)[key]
          else (key in items <==> now <= old(items)[key].expiresAt) && (key in items ==> items[key] == old(items)[key])
        decreases todo
      {
        var key :| key in todo;
        todo := todo - {key};
        if key in items && now > items[key].expiresAt {
          Forgettable(items, ideal, key, now);
          items := items - {key};
        }
      }
    }
  }

  /** An entry that has expired may be removed at any moment: under a clock that
      never goes back nobody can tell. */
  lemma Forgettable<V(!new)>(items: Table<V>, ideal: Table<V>, key: string, now: int)
    requires Agree(items, ideal, now)
    requires key in items && items[key].expiresAt < now
    ensures Agree(items - {key}, ideal, now)
  {
    forall k, t | t >= now ensures Lookup(items - {key}, k, t) == Lookup(ideal, k, t) {
      assert Lookup(items, k, t) == Lookup(ideal, k, t);
    }
  }

  lemma Overwritten<V(!new)>(a: Table<V>, b: Table<V>, key: string, item: Item<V>, now: int)
    requires Agree(a, b, now)
    ensures Agree(a[key := item], b[key := item], now)
  {
    var a', b' := a[key := item], b[key := item];
    forall k, t | t >= now ensures Lookup(a', k, t) == Lookup(b', k, t) {
      assert Lookup(a, k, t) == Lookup(b, k, t);
    }
  }

  lemma Removed<V(!new)>(a: Table<V>, b: Table<V>, key: string, now: int)
    requires Agree(a, b, now)
    ensures Agree(a - {key}, b - {key}, now)
  {
    forall k, t | t >= now ensures Lookup(a - {key}, k, t) == Lookup(b - {key}, k, t) {
      assert Lookup(a, k, t) == Lookup(b, k, t);
    }
  }

  /** It needs the clock: an entry removed early is missed if time goes back. */
  lemma ForgettableOnlyForward<V(!new)>(items: Table<V>, key: string, now: int)
    requires key in items && items[key].expiresAt < now
    ensures !Agree(items - {key}, items, items[key].expiresAt)
  {
    assert Lookup(items, key, items[key].expiresAt) == Some(items[key].data);
  }

  // ------------------------------------------------------------ whole runs

  datatype Op<V> = GetOp(key: string) | SetOp(key: string, data: V, ttl: int) | DeleteOp(key: string) | ClearOp | CleanupOp

  datatype Call<V> = Call(op: Op<V>, now: int)

  /** One call on a table from which no entry is ever removed for its age. */
  ghost function Applied<V>(ideal: Table<V>, c: Call<V>): Table<V> {
    match c.op
    case GetOp(_) => ideal
    case SetOp(key, data, ttl) => ideal[key := Item(data, c.now + ttl)]
    case DeleteOp(key) => ideal - {key}
    case ClearOp => map[]
    case CleanupOp => ideal
  }

  ghost function Answered<V>(ideal: Table<V>, c: Call<V>): seq<Option<V>> {
    if c.op.GetOp? then [Lookup(ideal, c.op.key, c.now)] else []
  }

  /** What each Get answers from such a table. */
  ghost function Answers<V>(ideal: Table<V>, calls: seq<Call<V>>): seq<Option<V>>
    decreases |calls|
  {
    if calls == [] then [] else Answered(ideal, calls[0]) + Answers(Applied(ideal, calls[0]), calls[1..])
  }

  ghost function TableOf<V>(calls: seq<Call<V>>): Table<V> {
    if calls == [] then map[] else Applied(TableOf(calls[..|calls| - 1]), calls[|calls| - 1])
  }

  function Gets<V>(calls: seq<Call<V>>): nat {
    if calls == [] then 0 else Gets(calls[..|calls| - 1]) + if calls[|calls| - 1].op.GetOp? then 1 else 0
  }

  /** The j-th call set this key, and none since then has set, deleted or cleared
      it. */
  ghost predicate Standing<V>(calls: seq<Call<V>>, key: string, j: int) {
    && 0 <= j < |calls| && calls[j].op.SetOp? && calls[j].op.key == key
    && forall m | j < m < |calls| :: !Ends(calls[m].op, key)
  }

  predicate Ends<V>(op: Op<V>, key: string) {
    (op.SetOp? && op.key == key) || (op.DeleteOp? && op.key == key) || op.ClearOp?
  }

  /** The table holds a key exactly while a call that set it stands. */
  lemma {:induction false} TableStanding<V>(calls: seq<Call<V>>, key: string)
    ensures forall j | Standing(calls, key, j) ::
      key in TableOf(calls) && TableOf(calls)[key] == Item(calls[j].op.data, calls[j].now + calls[j].op.ttl)
    ensures key in TableOf(calls) ==> exists j :: Standing(calls, key, j)
  {
    if calls != [] {
      var n := |calls| - 1;
      var front := calls[..n];
      TableStanding(front, key);
      assert forall m | 0 <= m < n :: front[m] == calls[m];
      if Ends(calls[n].op, key) {
        assert forall j | Standing(calls, key, j) :: j == n;
        assert calls[n].op.SetOp? ==> Standing(calls, key, n);
      } else {
        StandingFront(calls, key);
        AppliedElsewhere(TableOf(front), calls[n], key);
        forall j | Standing(calls, key, j)
          ensures key in TableOf(calls) && TableOf(calls)[key] == Item(calls[j].op.data, calls[j].now + calls[j].op.ttl)
        {
          assert Standing(front, key, j) && front[j] == calls[j];
        }
        if key in TableOf(front) {
          var j :| Standing(front, key, j);
          assert Standing(calls, key, j);
        }
      }
    }
  }

  lemma AppliedElsewhere<V>(ideal: Table<V>, c: Call<V>, key: string)
    requires !Ends(c.op, key)
    ensures key in Applied(ideal, c) <==> key in ideal
    ensures key in ideal ==> Applied(ideal, c)[key] == ideal[key]
  {
  }

  lemma StandingFront<V>(calls: seq<Call<V>>, key: string)
    requires calls != [] && !Ends(calls[|calls| - 1].op, key)
    ensures forall j :: Standing(calls, key, j) <==> Standing(calls[..|calls| - 1], key, j)
  {
    var n := |calls| - 1;
    assert forall m | 0 <= m < n :: calls[..n][m] == calls[m];
  }

  lemma {:induction false} AnswersSplit<V>(ideal: Table<V>, before: seq<Call<V>>, calls: seq<Call<V>>, k: nat)
    requires ideal == TableOf(before) && k < |calls| && calls[k].op.GetOp?
    ensures var n := Gets(before + calls[..k]) - Gets(before);
      && 0 <= n < |Answers(ideal, calls)|
      && Answers(ideal, calls)[n] == Lookup(TableOf(before + calls[..k]), calls[k].op.key, calls[k].now)
    decreases |calls|
  {
    if k == 0 {
      assert before + calls[..0] == before;
    } else {
      var next := before + [calls[0]];
      Appended(before, calls[0]);
      AnswersSplit(Applied(ideal, calls[0]), next, calls[1..], k - 1);
      assert next + calls[1..][..k - 1] == before + calls[..k];
      var n := Gets(before + calls[..k]) - Gets(next);
      DropConcat(Answered(ideal, calls[0]), Answers(Applied(ideal, calls[0]), calls[1..]), |Answered(ideal, calls[0])| + n);
    }
  }

  lemma Appended<V>(before: seq<Call<V>>, c: Call<V>)
    ensures TableOf(before + [c]) == Applied(TableOf(before), c)
    ensures Gets(before + [c]) == Gets(before) + |Answered(TableOf(before), c)|
  {
    assert (before + [c])[..|before|] == before;
  }

  /** What a cache is for: a Get answers the value last set under its key, up to
      and including the moment its time to live ends, unless the key has been
      deleted or everything cleared since; and nothing otherwise. */
  lemma AnswerMeans<V>(calls: seq<Call<V>>, k: nat, j: int) returns (n: nat)
    requires k < |calls| && calls[k].op.GetOp?
    ensures n == Gets(calls[..k]) < |Answers(map[], calls)|
    ensures Standing(calls[..k], calls[k].op.key, j) ==>
              Answers(map[], calls)[n] ==
              (if calls[k].now <= calls[j].now + calls[j].op.ttl then Some(calls[j].op.data) else None)
    ensures (forall i :: !Standing(calls[..k], calls[k].op.key, i)) ==> Answers(map[], calls)[n] == None
  {
    var front, key := calls[..k], calls[k].op.key;
    n := Gets(front);
    AnswersSplit(map[], [], calls, k);
    assert [] + front == front;
    TableStanding(front, key);
    if Standing(front, key, j) {
      assert front[j] == calls[j];
    }
  }

  /** One call on the cache is one call on the table that forgets nothing. */
  method Handle<V(!new, ==)>(cache: Cache<V>, c: Call<V>) returns (answer: seq<Option<V>>)
    requires cache.Valid() && cache.clock <= c.now
    modifies cache
    ensures cache.Valid() && cache.clock == c.now
    ensures cache.ideal == Applied(old(cache.ideal), c) && answer == Answered(old(cache.ideal), c)
  {
    answer := [];
    match c.op {
      case GetOp(key) =>
        var r := cache.Get(key, c.now);
        answer := [r];
      case SetOp(key, data, ttl) => cache.Set(key, data, ttl, c.now);
      case DeleteOp(key) => cache.Delete(key, c.now);
      case ClearOp => cache.Clear(c.now);
      case CleanupOp => cache.Cleanup(c.now);
    }
  }

  /** Any sequence of calls with clean-ups anywhere in it. */
  method Replay<V(!new, ==)>(calls: seq<Call<V>>) returns (answers: seq<Option<V>>)
    requires forall i, j | 0 <= i < j < |calls| :: calls[i].now <= calls[j].now
    ensures answers == Answers(map[], calls)
  {
    answers := [];
    if calls == [] {
      return;
    }
    var cache := new Cache<V>(calls[0].now);
    for i := 0 to |calls|
      invariant cache.Valid() && fresh(cache)
      invariant forall j | i <= j < |calls| :: cache.clock <= calls[j].now
      invariant answers + Answers(cache.ideal, calls[i..]) == Answers(map[], calls)
    {
      ghost var ideal, rest := cache.ideal, calls[i + 1..];
      assert calls[i..][0] == calls[i] && calls[i..][1..] == rest;
      Regroup(answers, Answered(ideal, calls[i]), Answers(Applied(ideal, calls[i]), rest));
      var answer := Handle(cache, calls[i]);
      answers := answers + answer;
    }
  }
}
