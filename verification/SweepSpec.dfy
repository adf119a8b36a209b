/** One retransmission sweep, and many, on the contents of the pending queue. */
module SweepSpec {
  import opened Basics
  import opened CoapList

  const MAX_RETRANSMIT: nat := 4

  /** A pending connection of identity `C`: whether a sweep acts on it, and how often it has been sent again. */
  datatype Waiting<C> = Waiting(conn: C, due: bool, tries: nat)

  predicate Expired<C>(w: Waiting<C>) {
    w.due && w.tries + 1 > MAX_RETRANSMIT
  }

  predicate Resent<C>(w: Waiting<C>) {
    w.due && w.tries + 1 <= MAX_RETRANSMIT
  }

  function Again<C>(item: Item<Waiting<C>>): Item<Waiting<C>> {
    Item(item.key, item.data.(tries := item.data.tries + 1))
  }

  /** A sweep that has come to place `at`, with the connections it sent again and the tokens it reported. */
  datatype Sweeping<C> = Sweeping(queue: seq<Item<Waiting<C>>>, at: nat, sent: seq<C>, dropped: seq<seq<byte>>)

  /** One turn of the loop. An expired entry is deleted by its token, and what goes is the first entry whose key
    * begins with that token.
    */
  function Turn<C>(s: Sweeping<C>): (r: Sweeping<C>)
    requires s.at < |s.queue|
    ensures r.at <= |r.queue| && |r.queue| - r.at == |s.queue| - s.at - 1
  {
    var item := s.queue[s.at];
    if Expired(item.data) then
      FirstFound(s.queue, s.at);
      Sweeping(Without(s.queue, FirstMatch(s.queue, item.key, |item.key|, 0)), s.at, s.sent, s.dropped + [item.key])
    else if Resent(item.data) then
      Sweeping(s.queue[s.at := Again(item)], s.at + 1, s.sent + [item.data.conn], s.dropped)
    else s.(at := s.at + 1)
  }

  function Finish<C>(s: Sweeping<C>): Sweeping<C>
    requires s.at <= |s.queue|
    decreases |s.queue| - s.at
  {
    if s.at == |s.queue| then s else Finish(Turn(s))
  }

  function Sweep<C>(queue: seq<Item<Waiting<C>>>): Sweeping<C> {
    Finish(Sweeping(queue, 0, [], []))
  }

  /** An entry matches its own key, so what is deleted is never beyond the entry being visited, and the
    * iterator's prefetched node stays.
    */
  lemma FirstFound<C>(queue: seq<Item<C>>, at: nat)
    requires at < |queue|
    ensures FirstMatch(queue, queue[at].key, |queue[at].key|, 0) <= at
  {
    FirstIsFirst(queue, queue[at].key, |queue[at].key|, 0, at);
  }

  lemma {:induction false} FirstIsFirst<C>(queue: seq<Item<C>>, key: seq<byte>, n: nat, from: nat, k: nat)
    requires from <= k < |queue| && Match(queue[k].key, key, n)
    ensures FirstMatch(queue, key, n, from) <= k
    decreases k - from
  {
    if from < k && !Match(queue[from].key, key, n) {
      FirstIsFirst(queue, key, n, from + 1, k);
    }
  }

  // ------------------------------------------------------------------ what a sweep should do

  /** An entry that stays, after the sweep. */
  function After<C>(item: Item<Waiting<C>>): Item<Waiting<C>> {
    if Resent(item.data) then Again(item) else item
  }

  /** Expired entries go, due ones count one more, the rest stay as they are. */
  function Kept<C>(queue: seq<Item<Waiting<C>>>): seq<Item<Waiting<C>>> {
    if queue == [] then []
    else if Expired(queue[0].data) then Kept(queue[1..])
    else [After(queue[0])] + Kept(queue[1..])
  }

  /** The connections that are due and not expired, in order. */
  function ToSend<C>(queue: seq<Item<Waiting<C>>>): seq<C> {
    if queue == [] then []
    else (if Resent(queue[0].data) then [queue[0].data.conn] else []) + ToSend(queue[1..])
  }

  function ToDrop<C>(queue: seq<Item<Waiting<C>>>): seq<seq<byte>> {
    if queue == [] then []
    else (if Expired(queue[0].data) then [queue[0].key] else []) + ToDrop(queue[1..])
  }

  /** No expired entry has a token that begins the key of an entry before it that stays. */
  ghost predicate Clear<C>(queue: seq<Item<Waiting<C>>>) {
    forall i, k :: 0 <= i < k < |queue| && Expired(queue[k].data) && !Expired(queue[i].data) ==>
        !Begins(queue[k].key, queue[i].key)
  }

  predicate Begins(token: seq<byte>, key: seq<byte>) {
    token <= key
  }

  lemma MatchIsBegins(key: seq<byte>, token: seq<byte>)
    ensures Match(key, token, |token|) <==> Begins(token, key)
  {
  }

  ghost predicate Distinct<C>(queue: seq<Item<Waiting<C>>>) {
    forall i, j :: 0 <= i < j < |queue| ==> queue[i].data.conn != queue[j].data.conn
  }

  /** A sweep visits every entry once, whatever is deleted on the way: the sends and the reports are those of all
    * due and all expired entries, in order.
    */
  lemma {:induction false} EveryEntryOnce<C>(s: Sweeping<C>)
    requires s.at <= |s.queue|
    ensures Finish(s).sent == s.sent + ToSend(s.queue[s.at..])
    ensures Finish(s).dropped == s.dropped + ToDrop(s.queue[s.at..])
    decreases |s.queue| - s.at
  {
    hide Turn;
    if s.at < |s.queue| {
      OneTurn(s);
      EveryEntryOnce(Turn(s));
    }
  }

  lemma OneTurn<C>(s: Sweeping<C>)
    requires s.at < |s.queue|
    ensures var t := Turn(s);
      && t.queue[t.at..] == s.queue[s.at + 1..] == s.queue[s.at..][1..] && s.queue[s.at..][0] == s.queue[s.at]
      && t.sent == s.sent + (if Resent(s.queue[s.at].data) then [s.queue[s.at].data.conn] else [])
      && t.dropped == s.dropped + (if Expired(s.queue[s.at].data) then [s.queue[s.at].key] else [])
  {
    hide FirstMatch;
    FirstFound(s.queue, s.at);
  }

  // ------------------------------------------------------------------ when it does

  /** As `Clear`, in the order of the loop: `front` has been visited and stays. */
  ghost predicate ClearFrom<C>(front: seq<Item<Waiting<C>>>, rest: seq<Item<Waiting<C>>>)
    decreases |rest|
  {
    rest == [] ||
    if Expired(rest[0].data) then Untouched(front, rest[0].key) && ClearFrom(front, rest[1..])
    else ClearFrom(front + [After(rest[0])], rest[1..])
  }

  ghost predicate Untouched<C>(front: seq<Item<Waiting<C>>>, token: seq<byte>) {
    forall i :: 0 <= i < |front| ==> !Begins(token, front[i].key)
  }

  ghost predicate AllUntouched<C>(front: seq<Item<Waiting<C>>>, rest: seq<Item<Waiting<C>>>) {
    forall k :: 0 <= k < |rest| && Expired(rest[k].data) ==> Untouched(front, rest[k].key)
  }

  lemma {:induction false} ClearIsClearFrom<C>(front: seq<Item<Waiting<C>>>, rest: seq<Item<Waiting<C>>>)
    ensures ClearFrom(front, rest) <==> AllUntouched(front, rest) && Clear(rest)
    decreases |rest|
  {
    if rest != [] {
      var next := After(rest[0]);
      ClearStep(rest);
      AllUntouchedStep(front, rest);
      if Expired(rest[0].data) {
        ClearIsClearFrom(front, rest[1..]);
      } else {
        ClearIsClearFrom(front + [next], rest[1..]);
        AllUntouchedSnoc(front, next, rest[1..]);
        AllUntouchedSame(next, rest[0], rest[1..]);
      }
    }
  }

  lemma ClearStep<C>(rest: seq<Item<Waiting<C>>>)
    requires rest != []
    ensures Clear(rest) <==> Clear(rest[1..]) && (!Expired(rest[0].data) ==> AllUntouched([rest[0]], rest[1..]))
  {
    var r := rest[1..];
    if Clear(r) && (!Expired(rest[0].data) ==> AllUntouched([rest[0]], r)) {
      forall i, k | 0 <= i < k < |rest| && Expired(rest[k].data) && !Expired(rest[i].data)
        ensures !Begins(rest[k].key, rest[i].key)
      {
        assert rest[k] == r[k - 1];
        if i == 0 {
          assert Untouched([rest[0]], r[k - 1].key);
          assert [rest[0]][0] == rest[0];
        } else {
          assert rest[i] == r[i - 1];
        }
      }
    }
    if Clear(rest) {
      forall i, k | 0 <= i < k < |r| && Expired(r[k].data) && !Expired(r[i].data)
        ensures !Begins(r[k].key, r[i].key)
      {
        assert r[k] == rest[k + 1] && r[i] == rest[i + 1];
      }
      if !Expired(rest[0].data) {
        forall k | 0 <= k < |r| && Expired(r[k].data)
          ensures Untouched([rest[0]], r[k].key)
        {
          assert r[k] == rest[k + 1];
        }
      }
    }
  }

  lemma AllUntouchedStep<C>(front: seq<Item<Waiting<C>>>, rest: seq<Item<Waiting<C>>>)
    requires rest != []
    ensures AllUntouched(front, rest) <==>
      (Expired(rest[0].data) ==> Untouched(front, rest[0].key)) && AllUntouched(front, rest[1..])
  {
    hide Untouched;
    var r := rest[1..];
    assert forall k :: 0 < k < |rest| ==> rest[k] == r[k - 1];
    assert forall k :: 0 <= k < |r| ==> r[k] == rest[k + 1];
  }

  lemma AllUntouchedSnoc<C>(front: seq<Item<Waiting<C>>>, x: Item<Waiting<C>>, rest: seq<Item<Waiting<C>>>)
    ensures AllUntouched(front + [x], rest) <==> AllUntouched(front, rest) && AllUntouched([x], rest)
  {
    forall k | 0 <= k < |rest|
      ensures Untouched(front + [x], rest[k].key) <==> Untouched(front, rest[k].key) && Untouched([x], rest[k].key)
    {
      UntouchedSnoc(front, x, rest[k].key);
    }
    hide Untouched;
  }

  lemma UntouchedSnoc<C>(front: seq<Item<Waiting<C>>>, x: Item<Waiting<C>>, token: seq<byte>)
    ensures Untouched(front + [x], token) <==> Untouched(front, token) && Untouched([x], token)
  {
    hide Begins;
    var all := front + [x];
    assert all[|front|] == x && [x][0] == x;
    assert forall i :: 0 <= i < |front| ==> all[i] == front[i];
  }

  lemma AllUntouchedSame<C>(x: Item<Waiting<C>>, y: Item<Waiting<C>>, rest: seq<Item<Waiting<C>>>)
    requires x.key == y.key
    ensures AllUntouched([x], rest) <==> AllUntouched([y], rest)
  {
    hide Begins;
    forall k | 0 <= k < |rest|
      ensures Untouched([x], rest[k].key) <==> Untouched([y], rest[k].key)
    {
      assert [x][0] == x && [y][0] == y;
    }
  }

  /** Untouched entries are not what a deletion finds first. */
  lemma {:induction false} FirstPast<C>(front: seq<Item<Waiting<C>>>, rest: seq<Item<Waiting<C>>>, from: nat)
    requires rest != [] && from <= |front| && Untouched(front, rest[0].key)
    ensures FirstMatch(front + rest, rest[0].key, |rest[0].key|, from) == |front|
    decreases |front| - from
  {
    if from < |front| {
      MatchIsBegins((front + rest)[from].key, rest[0].key);
      FirstPast(front, rest, from + 1);
    }
  }

  lemma TurnStays<C>(front: seq<Item<Waiting<C>>>, rest: seq<Item<Waiting<C>>>, sent: seq<C>, dropped: seq<seq<byte>>)
    requires rest != [] && !Expired(rest[0].data)
    ensures var t := Turn(Sweeping(front + rest, |front|, sent, dropped));
      t.queue == (front + [After(rest[0])]) + rest[1..] && t.at == |front| + 1 && t.dropped == dropped
  {
    Reshape(front, rest, After(rest[0]));
  }

  lemma TurnDrops<C>(front: seq<Item<Waiting<C>>>, rest: seq<Item<Waiting<C>>>, sent: seq<C>, dropped: seq<seq<byte>>)
    requires rest != [] && Expired(rest[0].data) && Untouched(front, rest[0].key)
    ensures var t := Turn(Sweeping(front + rest, |front|, sent, dropped));
      t.queue == front + rest[1..] && t.at == |front| && t.sent == sent
  {
    hide FirstMatch, Untouched;
    Reshape(front, rest, rest[0]);
    FirstPast(front, rest, 0);
  }

  lemma {:induction false} ClearFinish<C>(front: seq<Item<Waiting<C>>>, rest: seq<Item<Waiting<C>>>, sent: seq<C>,
                                          dropped: seq<seq<byte>>)
    requires ClearFrom(front, rest)
    ensures Finish(Sweeping(front + rest, |front|, sent, dropped)).queue == front + Kept(rest)
    decreases |rest|
  {
    hide Turn, Untouched;
    var s := Sweeping(front + rest, |front|, sent, dropped);
    if rest == [] {
      assert front + rest == front + Kept(rest);
    } else if Expired(rest[0].data) {
      TurnDrops(front, rest, sent, dropped);
      ClearFinish(front, rest[1..], sent, Turn(s).dropped);
    } else {
      TurnStays(front, rest, sent, dropped);
      ClearFinish(front + [After(rest[0])], rest[1..], Turn(s).sent, dropped);
      Associate(front, [After(rest[0])], Kept(rest[1..]));
    }
  }

  lemma Reshape<D>(front: seq<D>, rest: seq<D>, next: D)
    requires rest != []
    ensures var all := front + rest;
      && all[|front|] == rest[0]
      && all[..|front|] + all[|front| + 1..] == front + rest[1..]
      && all[|front| := next] == (front + [next]) + rest[1..]
      && (rest[0] == next ==> all == (front + [next]) + rest[1..])
  {
  }

  ghost predicate Queued<C>(queue: seq<Item<Waiting<C>>>, c: C) {
    exists i :: 0 <= i < |queue| && queue[i].data.conn == c
  }

  lemma TurnShrinks<C>(s: Sweeping<C>, c: C)
    requires s.at < |s.queue| && Queued(Turn(s).queue, c)
    ensures Queued(s.queue, c)
  {
    hide FirstMatch;
    var t := Turn(s);
    var i :| 0 <= i < |t.queue| && t.queue[i].data.conn == c;
    if Expired(s.queue[s.at].data) {
      var j := FirstMatch(s.queue, s.queue[s.at].key, |s.queue[s.at].key|, 0);
      FirstFound(s.queue, s.at);
      assert s.queue[if i < j then i else i + 1] == t.queue[i];
    } else {
      assert s.queue[i].data.conn == c;
    }
  }

  lemma {:induction false} FinishShrinks<C>(s: Sweeping<C>, c: C)
    requires s.at <= |s.queue| && !Queued(s.queue, c)
    ensures !Queued(Finish(s).queue, c)
    decreases |s.queue| - s.at
  {
    hide Turn, Queued;
    if s.at < |s.queue| {
      if Queued(Turn(s).queue, c) {
        TurnShrinks(s, c);
      }
      FinishShrinks(Turn(s), c);
    }
  }

  /** The wrong entry is deleted, and nothing brings it back. */
  lemma WrongEntryLost<C>(front: seq<Item<Waiting<C>>>, rest: seq<Item<Waiting<C>>>, sent: seq<C>,
                          dropped: seq<seq<byte>>)
    requires rest != [] && Expired(rest[0].data) && !Untouched(front, rest[0].key) && Distinct(front + rest)
    ensures Finish(Sweeping(front + rest, |front|, sent, dropped)).queue != front + Kept(rest)
  {
    hide FirstMatch, Kept;
    var s := Sweeping(front + rest, |front|, sent, dropped);
    var all := front + rest;
    var token := rest[0].key;
    var i :| 0 <= i < |front| && Begins(token, front[i].key);
    assert all[i] == front[i] && all[|front|] == rest[0];
    MatchIsBegins(all[i].key, token);
    FirstIsFirst(all, token, |token|, 0, i);
    var j := FirstMatch(all, token, |token|, 0);
    var lost := all[j].data.conn;
    assert !Queued(Turn(s).queue, lost);
    FinishShrinks(Turn(s), lost);
    assert (front + Kept(rest))[j].data.conn == lost;
  }

  lemma DistinctAfter<C>(front: seq<Item<Waiting<C>>>, rest: seq<Item<Waiting<C>>>)
    requires rest != [] && Distinct(front + rest)
    ensures Distinct(front + rest[1..]) && Distinct((front + [After(rest[0])]) + rest[1..])
  {
    var all := front + rest;
    var shorter := front + rest[1..];
    var changed := (front + [After(rest[0])]) + rest[1..];
    assert forall i :: 0 <= i < |shorter| ==> shorter[i] == all[if i < |front| then i else i + 1];
    assert forall i :: 0 <= i < |changed| ==> changed[i].data.conn == all[i].data.conn;
  }

  lemma {:induction false} UnclearFinish<C>(front: seq<Item<Waiting<C>>>, rest: seq<Item<Waiting<C>>>, sent: seq<C>,
                                            dropped: seq<seq<byte>>)
    requires !ClearFrom(front, rest) && Distinct(front + rest)
    ensures Finish(Sweeping(front + rest, |front|, sent, dropped)).queue != front + Kept(rest)
    decreases |rest|
  {
    hide Turn, Untouched, Distinct, Begins;
    var s := Sweeping(front + rest, |front|, sent, dropped);
    DistinctAfter(front, rest);
    if !Expired(rest[0].data) {
      TurnStays(front, rest, sent, dropped);
      UnclearFinish(front + [After(rest[0])], rest[1..], Turn(s).sent, dropped);
      Associate(front, [After(rest[0])], Kept(rest[1..]));
    } else if Untouched(front, rest[0].key) {
      TurnDrops(front, rest, sent, dropped);
      UnclearFinish(front, rest[1..], sent, Turn(s).dropped);
    } else {
      WrongEntryLost(front, rest, sent, dropped);
    }
  }

  /** A sweep deletes just the expired entries exactly when no expired entry has a token that begins the key of
    * an earlier entry that stays.
    */
  lemma SweepIsExact<C>(queue: seq<Item<Waiting<C>>>)
    requires Distinct(queue)
    ensures Sweep(queue).queue == Kept(queue) <==> Clear(queue)
    ensures Sweep(queue).sent == ToSend(queue) && Sweep(queue).dropped == ToDrop(queue)
  {
    hide Clear, Turn, Finish, Distinct, ToSend, ToDrop, Kept;
    ClearIsClearFrom([], queue);
    assert [] + queue == queue && [] + Kept(queue) == Kept(queue);
    EveryEntryOnce(Sweeping(queue, 0, [], []));
    assert queue[0..] == queue && [] + ToSend(queue) == ToSend(queue) && [] + ToDrop(queue) == ToDrop(queue);
    if ClearFrom([], queue) {
      ClearFinish([], queue, [], []);
    } else {
      UnclearFinish([], queue, [], []);
    }
  }

  // ------------------------------------------------------------------ many sweeps

  /** No key begins another. */
  ghost predicate Apart<C>(queue: seq<Item<Waiting<C>>>) {
    forall i, j :: 0 <= i < |queue| && 0 <= j < |queue| && i != j ==> !Begins(queue[i].key, queue[j].key)
  }

  /** The queue after `n` sweeps. */
  function Sweeps<C>(queue: seq<Item<Waiting<C>>>, n: nat): seq<Item<Waiting<C>>> {
    if n == 0 then queue else Sweep(Sweeps(queue, n - 1)).queue
  }

  /** What becomes of an entry in `n` sweeps: it is sent again once in each, up to the fourth time in all, then it is
    * dropped. An entry that is not due stays as it is.
    */
  predicate Stays<C>(w: Waiting<C>, n: nat) {
    !w.due || w.tries + n <= MAX_RETRANSMIT
  }

  function Survivors<C>(queue: seq<Item<Waiting<C>>>, n: nat): seq<Item<Waiting<C>>> {
    if queue == [] then []
    else
      var w := queue[0].data;
      (if Stays(w, n) then [Item(queue[0].key, if w.due then w.(tries := w.tries + n) else w)] else [])
        + Survivors(queue[1..], n)
  }

  /** The connections that the `n`-th sweep sends again, and the tokens it reports. */
  function SentIn<C>(queue: seq<Item<Waiting<C>>>, n: nat): seq<C> {
    if queue == [] then []
    else
      (if queue[0].data.due && queue[0].data.tries + n <= MAX_RETRANSMIT then [queue[0].data.conn] else [])
      + SentIn(queue[1..], n)
  }

  function DroppedIn<C>(queue: seq<Item<Waiting<C>>>, n: nat): seq<seq<byte>> {
    if queue == [] then []
    else
      (if queue[0].data.due && queue[0].data.tries + n == MAX_RETRANSMIT + 1 then [queue[0].key] else [])
      + DroppedIn(queue[1..], n)
  }

  ghost predicate Counted<C>(queue: seq<Item<Waiting<C>>>) {
    forall i :: 0 <= i < |queue| ==> queue[i].data.tries <= MAX_RETRANSMIT
  }

  lemma {:induction false} NextSweep<C>(queue: seq<Item<Waiting<C>>>, n: nat)
    requires Counted(queue)
    ensures Kept(Survivors(queue, n)) == Survivors(queue, n + 1)
    ensures ToSend(Survivors(queue, n)) == SentIn(queue, n + 1)
    ensures ToDrop(Survivors(queue, n)) == DroppedIn(queue, n + 1)
  {
    if queue != [] {
      NextSweep(queue[1..], n);
      var s := Survivors(queue, n);
      if Stays(queue[0].data, n) {
        assert s[1..] == Survivors(queue[1..], n);
      } else {
        assert s == Survivors(queue[1..], n);
      }
    }
  }

  /** A survivor is one of the original entries. */
  lemma {:induction false} SurvivorFrom<C>(queue: seq<Item<Waiting<C>>>, n: nat, i: nat) returns (k: nat)
    requires i < |Survivors(queue, n)|
    ensures k < |queue| && Survivors(queue, n)[i].key == queue[k].key
    ensures Survivors(queue, n)[i].data.conn == queue[k].data.conn
  {
    if Stays(queue[0].data, n) {
      if i == 0 {
        k := 0;
      } else {
        assert Survivors(queue, n)[1..] == Survivors(queue[1..], n);
        k := SurvivorFrom(queue[1..], n, i - 1);
        k := k + 1;
      }
    } else {
      assert Survivors(queue, n) == Survivors(queue[1..], n);
      k := SurvivorFrom(queue[1..], n, i);
      k := k + 1;
    }
  }

  ghost predicate Separate<C>(queue: seq<Item<Waiting<C>>>) {
    Apart(queue) && Distinct(queue)
  }

  lemma SeparateTail<C>(queue: seq<Item<Waiting<C>>>)
    requires queue != [] && Separate(queue)
    ensures Separate(queue[1..])
  {
    hide Begins;
    assert forall i :: 0 <= i < |queue| - 1 ==> queue[1..][i] == queue[i + 1];
  }

  lemma SeparateCons<C>(x: Item<Waiting<C>>, queue: seq<Item<Waiting<C>>>)
    requires Separate(queue)
    requires forall i :: 0 <= i < |queue| ==>
      !Begins(x.key, queue[i].key) && !Begins(queue[i].key, x.key) && queue[i].data.conn != x.data.conn
    ensures Separate([x] + queue)
  {
    hide Begins;
    var all := [x] + queue;
    assert forall i :: 0 < i < |all| ==> all[i] == queue[i - 1];
  }

  lemma {:induction false} SurvivorsSeparate<C>(queue: seq<Item<Waiting<C>>>, n: nat)
    requires Separate(queue)
    ensures Separate(Survivors(queue, n))
  {
    if queue != [] {
      SeparateTail(queue);
      SurvivorsSeparate(queue[1..], n);
      var rest := Survivors(queue[1..], n);
      if Stays(queue[0].data, n) {
        var x := Survivors(queue, n)[0];
        assert Survivors(queue, n) == [x] + rest;
        forall i | 0 <= i < |rest|
          ensures !Begins(x.key, rest[i].key) && !Begins(rest[i].key, x.key) && rest[i].data.conn != x.data.conn
        {
          var k := SurvivorFrom(queue[1..], n, i);
          assert queue[1..][k] == queue[k + 1];
        }
        SeparateCons(x, rest);
      } else {
        assert Survivors(queue, n) == rest;
      }
    }
  }

  lemma ApartIsClear<C>(queue: seq<Item<Waiting<C>>>)
    requires Apart(queue)
    ensures Clear(queue)
  {
    hide Begins;
  }

  lemma {:induction false} NoneGone<C>(queue: seq<Item<Waiting<C>>>)
    requires Counted(queue)
    ensures Survivors(queue, 0) == queue
  {
    if queue != [] {
      NoneGone(queue[1..]);
    }
  }

  /** With tokens none of which begins another, the whole run of sweeps is known in advance: which entries are left
    * after each, with what count, which were sent again in it and which were reported as dropped.
    */
  lemma {:induction false} SweepsInClosedForm<C>(queue: seq<Item<Waiting<C>>>, n: nat)
    requires Separate(queue) && Counted(queue)
    ensures Sweeps(queue, n) == Survivors(queue, n)
    ensures Sweep(Sweeps(queue, n)).sent == SentIn(queue, n + 1)
    ensures Sweep(Sweeps(queue, n)).dropped == DroppedIn(queue, n + 1)
  {
    hide Sweep, Separate, Counted, Survivors, SentIn, DroppedIn, Kept, ToSend, ToDrop;
    if n == 0 {
      NoneGone(queue);
    } else {
      SweepsInClosedForm(queue, n - 1);
      OneSweep(queue, n - 1);
    }
    OneSweep(queue, n);
  }

  lemma OneSweep<C>(queue: seq<Item<Waiting<C>>>, n: nat)
    requires Separate(queue) && Counted(queue)
    ensures var s := Sweep(Survivors(queue, n));
      s.queue == Survivors(queue, n + 1) && s.sent == SentIn(queue, n + 1) && s.dropped == DroppedIn(queue, n + 1)
  {
    hide Sweep, Survivors, SentIn, DroppedIn, Kept, ToSend, ToDrop, Apart, Distinct, Clear, Counted;
    SurvivorsSeparate(queue, n);
    ApartIsClear(Survivors(queue, n));
    SweepIsExact(Survivors(queue, n));
    NextSweep(queue, n);
  }

  // ------------------------------------------------------------------ one entry

  lemma {:induction false} NotInvolved<C>(queue: seq<Item<Waiting<C>>>, conn: C, key: seq<byte>, n: nat)
    requires forall i :: 0 <= i < |queue| ==> queue[i].data.conn != conn && queue[i].key != key
    ensures conn !in SentIn(queue, n) && key !in DroppedIn(queue, n)
  {
    if queue != [] {
      NotInvolved(queue[1..], conn, key, n);
    }
  }

  /** A fresh entry that is due is sent again in each of the first four sweeps, once, and reported and dropped in
    * the fifth, once.
    */
  lemma {:induction false} FreshEntry<C>(queue: seq<Item<Waiting<C>>>, i: nat, n: nat)
    requires Separate(queue) && i < |queue| && queue[i].data.due && queue[i].data.tries == 0 && n >= 1
    ensures multiset(SentIn(queue, n))[queue[i].data.conn] == if n <= 4 then 1 else 0
    ensures multiset(DroppedIn(queue, n))[queue[i].key] == if n == 5 then 1 else 0
  {
    var w, rest := queue[0], queue[1..];
    var conn, key := queue[i].data.conn, queue[i].key;
    var first := if w.data.due && w.data.tries + n <= MAX_RETRANSMIT then [w.data.conn] else [];
    var gone := if w.data.due && w.data.tries + n == MAX_RETRANSMIT + 1 then [w.key] else [];
    assert SentIn(queue, n) == first + SentIn(rest, n) && DroppedIn(queue, n) == gone + DroppedIn(rest, n);
    if i == 0 {
      forall j | 0 <= j < |rest|
        ensures rest[j].data.conn != conn && rest[j].key != key
      {
        assert rest[j] == queue[j + 1];
        assert !Begins(queue[0].key, queue[j + 1].key);
      }
      NotInvolved(rest, conn, key, n);
    } else {
      SeparateTail(queue);
      FreshEntry(rest, i - 1, n);
      assert !Begins(queue[0].key, queue[i].key);
    }
  }

  // ------------------------------------------------------------------ where it fails

  /** Tokens are decimal numbers, so one may well begin another: here "1" expires while "12", before it, has not even
    * been sent again once; it is "12" that goes.
    */
  lemma ShorterTokenTakesLonger<C>(a: C, b: C)
    ensures var longer := Item([49, 50], Waiting(a, true, 0));
      var shorter := Item([49], Waiting(b, true, MAX_RETRANSMIT));
      Sweep([longer, shorter]).queue == [shorter] && Kept([longer, shorter]) == [Again(longer)]
  {
    hide FirstMatch;
    var longer := Item([49, 50], Waiting(a, true, 0));
    var shorter := Item([49], Waiting(b, true, MAX_RETRANSMIT));
    var s1 := Sweeping([Again(longer), shorter], 1, [a], []);
    var s2 := Sweeping([shorter], 1, [a], [[49]]);
    assert Turn(Sweeping([longer, shorter], 0, [], [])) == s1 by {
      assert [longer, shorter][0 := Again(longer)] == s1.queue;
    }
    assert Turn(s1) == s2 by {
      FirstIsFirst(s1.queue, [49], 1, 0, 0);
      assert Without(s1.queue, 0) == [shorter];
    }
    assert Finish(s1) == Finish(s2) && Finish(s2) == s2;
    assert Finish(Sweeping([longer, shorter], 0, [], [])) == Finish(s1);
    assert [longer, shorter][1..] == [shorter] && [shorter][1..] == [];
    assert Kept([shorter]) == [] + Kept([shorter][1..]);
    assert Kept([longer, shorter]) == [Again(longer)] + Kept([shorter]);
  }
}
