/**
  Concurrent submissions of KYC documents (submitDocument in src/kyc/kyc.service.ts): each looks up the live
  documents of its type, later creates its own, and later still supersedes what it had looked up.
 */
module KycRace {
  import opened Wrappers
  import Kyc

  /** `foundAt` records history: how many documents existed when the submission looked. */
  datatype Entry = Entry(pid: string, docType: Kyc.DocType, superseded: bool, supersedes: Option<nat>, foundAt: nat)

  datatype Op =
    | Found(pid: string, docType: Kyc.DocType, previous: seq<nat>, foundAt: nat)
    | Created(own: nat, previous: seq<nat>)

  datatype World = World(docs: seq<Entry>, ops: map<nat, Op>)

  datatype Event = Find(op: nat, pid: string, docType: Kyc.DocType) | Create(op: nat) | Update(op: nat)

  predicate LiveOf(d: Entry, pid: string, t: Kyc.DocType) { d.pid == pid && d.docType == t && !d.superseded }

  /** The live documents of a type, newest first. */
  function LiveIds(docs: seq<Entry>, pid: string, t: Kyc.DocType): (ids: seq<nat>)
    ensures forall i :: i in ids <==> 0 <= i < |docs| && LiveOf(docs[i], pid, t)
  {
    if docs == [] then []
    else
      var last := |docs| - 1;
      (if LiveOf(docs[last], pid, t) then [last] else []) + LiveIds(docs[..last], pid, t)
  }

  function SupersedeAll(docs: seq<Entry>, ids: seq<nat>): seq<Entry> {
    seq(|docs|, i requires 0 <= i < |docs| => if i in ids then docs[i].(superseded := true) else docs[i])
  }

  function Next(w: World, e: Event): World {
    match e
    case Find(op, pid, t) =>
      if op in w.ops then w
      else w.(ops := w.ops[op := Found(pid, t, LiveIds(w.docs, pid, t), |w.docs|)])
    case Create(op) =>
      if op !in w.ops || !w.ops[op].Found? then w
      else
        var x := w.ops[op];
        var link := if x.previous != [] then Some(x.previous[0]) else None;
        World(w.docs + [Entry(x.pid, x.docType, false, link, x.foundAt)], w.ops[op := Created(|w.docs|, x.previous)])
    case Update(op) =>
      if op !in w.ops || !w.ops[op].Created? then w
      else World(SupersedeAll(w.docs, w.ops[op].previous), w.ops - {op})
  }

  function Run(w: World, events: seq<Event>): World
    decreases |events|
  {
    if events == [] then w else Run(Next(w, events[0]), events[1..])
  }

  const EMPTY := World([], map[])

  predicate SameKey(a: Entry, b: Entry) { a.pid == b.pid && a.docType == b.docType }

  predicate Older(docs: seq<Entry>, i: int, j: int) {
    0 <= i < |docs| && 0 <= j < |docs| && SameKey(docs[i], docs[j]) && i < docs[j].foundAt
  }

  /** A submission that has looked knows every live document that was there. */
  ghost predicate OpFits(w: World, op: nat) {
    op in w.ops ==>
      match w.ops[op]
      case Found(pid, t, previous, foundAt) =>
        && foundAt <= |w.docs|
        && (forall i :: i in previous ==> i < foundAt && w.docs[i].pid == pid && w.docs[i].docType == t)
        && (forall i :: 0 <= i < foundAt && LiveOf(w.docs[i], pid, t) ==> i in previous)
      case Created(own, previous) =>
        && own < |w.docs|
        && (forall i :: i in previous ==> Older(w.docs, i, own))
        && (forall i :: Older(w.docs, i, own) && !w.docs[i].superseded ==> i in previous)
  }

  ghost predicate InFlight(w: World, j: int) { exists op :: op in w.ops && w.ops[op].Created? && w.ops[op].own == j }

  /** A finished submission has superseded every older document of its type. */
  ghost predicate DocFits(w: World, j: int) {
    0 <= j < |w.docs| ==>
      && w.docs[j].foundAt <= j
      && (!InFlight(w, j) ==> forall i :: Older(w.docs, i, j) ==> w.docs[i].superseded)
  }

  /** Whatever is superseded was older than some submission of its type. */
  ghost predicate Accounted(w: World, i: int) {
    0 <= i < |w.docs| && w.docs[i].superseded ==> exists j :: Older(w.docs, i, j)
  }

  ghost predicate Inv(w: World) {
    && (forall op :: OpFits(w, op)) && (forall j :: DocFits(w, j)) && (forall i :: Accounted(w, i))
  }

  lemma FindKeepsInv(w: World, op: nat, pid: string, t: Kyc.DocType)
    requires Inv(w) && op !in w.ops
    ensures Inv(Next(w, Find(op, pid, t)))
  {
    var v := Next(w, Find(op, pid, t));
    forall o ensures OpFits(v, o) { assert OpFits(w, o); }
    forall j ensures DocFits(v, j) {
      assert DocFits(w, j);
      if InFlight(w, j) {
        var o :| o in w.ops && w.ops[o].Created? && w.ops[o].own == j;
        assert o in v.ops && v.ops[o] == w.ops[o];
      }
    }
    forall i ensures Accounted(v, i) { assert Accounted(w, i); }
  }

  lemma CreateKeepsInv(w: World, op: nat)
    requires Inv(w) && op in w.ops && w.ops[op].Found?
    ensures Inv(Next(w, Create(op)))
  {
    var v := Next(w, Create(op));
    var n := |w.docs|;
    assert OpFits(w, op);
    forall i, j | 0 <= j < n ensures Older(v.docs, i, j) <==> Older(w.docs, i, j) { assert DocFits(w, j); }
    forall o ensures OpFits(v, o) { assert OpFits(w, o); }
    forall j ensures DocFits(v, j) {
      if j == n {
        assert op in v.ops && v.ops[op].Created? && v.ops[op].own == j;
        assert InFlight(v, j);
      } else {
        assert DocFits(w, j);
        if InFlight(w, j) {
          var o :| o in w.ops && w.ops[o].Created? && w.ops[o].own == j;
          assert o in v.ops && v.ops[o] == w.ops[o];
        }
      }
    }
    forall i ensures Accounted(v, i) {
      assert Accounted(w, i);
      if 0 <= i < n && v.docs[i].superseded {
        var j :| Older(w.docs, i, j);
        assert Older(v.docs, i, j);
      }
    }
  }

  lemma UpdateKeepsInv(w: World, op: nat)
    requires Inv(w) && op in w.ops && w.ops[op].Created?
    ensures Inv(Next(w, Update(op)))
  {
    var v := Next(w, Update(op));
    var own := w.ops[op].own;
    assert OpFits(w, op);
    assert forall i, j :: Older(v.docs, i, j) <==> Older(w.docs, i, j);
    forall o ensures OpFits(v, o) { assert OpFits(w, o); }
    forall j ensures DocFits(v, j) {
      assert DocFits(w, j);
      if InFlight(w, j) && j != own {
        var o :| o in w.ops && w.ops[o].Created? && w.ops[o].own == j;
        assert o in v.ops && v.ops[o] == w.ops[o];
      }
    }
    forall i ensures Accounted(v, i) {
      assert Accounted(w, i);
      if 0 <= i < |v.docs| && v.docs[i].superseded {
        if w.docs[i].superseded {
          var j :| Older(w.docs, i, j);
          assert Older(v.docs, i, j);
        } else {
          assert Older(v.docs, i, own);
        }
      }
    }
  }

  lemma {:induction false} RunKeepsInv(w: World, events: seq<Event>)
    requires Inv(w)
    ensures Inv(Run(w, events))
    decreases |events|
  {
    hide Inv;
    if events != [] {
      match events[0] {
        case Find(op, pid, t) => if op !in w.ops { FindKeepsInv(w, op, pid, t); }
        case Create(op) => if op in w.ops && w.ops[op].Found? { CreateKeepsInv(w, op); }
        case Update(op) => if op in w.ops && w.ops[op].Created? { UpdateKeepsInv(w, op); }
      }
      RunKeepsInv(Next(w, events[0]), events[1..]);
    }
  }

  /**
    In any interleaving, once every submission has finished, a document is live exactly when no submission
    of its type looked after it was created.
   */
  lemma LiveExactlyWhenNobodyLookedAfter(events: seq<Event>, i: nat)
    requires Run(EMPTY, events).ops == map[] && i < |Run(EMPTY, events).docs|
    ensures var docs := Run(EMPTY, events).docs;
      !docs[i].superseded <==> forall j :: 0 <= j < |docs| && SameKey(docs[i], docs[j]) ==> docs[j].foundAt <= i
  {
    hide Run;
    RunKeepsInv(EMPTY, events);
    var w := Run(EMPTY, events);
    assert Accounted(w, i);
    forall j | 0 <= j < |w.docs| && SameKey(w.docs[i], w.docs[j]) && !w.docs[i].superseded ensures w.docs[j].foundAt <= i {
      assert DocFits(w, j) && !InFlight(w, j);
      assert !Older(w.docs, i, j);
    }
    if w.docs[i].superseded {
      var j :| Older(w.docs, i, j);
      assert 0 <= j < |w.docs| && SameKey(w.docs[i], w.docs[j]) && w.docs[j].foundAt > i;
    }
  }

  /**
    Of two submissions of one type and no third, both stay live exactly when the second looked before the
    first was created.
   */
  lemma TwoStayLiveExactly(events: seq<Event>, i: nat, j: nat)
    requires var w := Run(EMPTY, events);
      && w.ops == map[] && i < j < |w.docs| && SameKey(w.docs[i], w.docs[j])
      && forall k :: 0 <= k < |w.docs| && SameKey(w.docs[i], w.docs[k]) ==> k == i || k == j
    ensures var docs := Run(EMPTY, events).docs;
      !docs[i].superseded && !docs[j].superseded <==> docs[j].foundAt <= i
  {
    hide Run;
    RunKeepsInv(EMPTY, events);
    var w := Run(EMPTY, events);
    assert DocFits(w, i) && DocFits(w, j);
    LiveExactlyWhenNobodyLookedAfter(events, i);
    LiveExactlyWhenNobodyLookedAfter(events, j);
  }

  /** It happens: two submissions look before either creates, and both of their documents stay live. */
  lemma TwoLiveDocuments(pid: string, t: Kyc.DocType) returns (events: seq<Event>)
    ensures var w := Run(EMPTY, events);
      w.ops == map[] && w.docs == [Entry(pid, t, false, None, 0), Entry(pid, t, false, None, 0)]
  {
    events := [Find(0, pid, t), Find(1, pid, t), Create(0), Create(1), Update(0), Update(1)];
    var d := Entry(pid, t, false, None, 0);
    var w1 := Next(EMPTY, events[0]);
    var w2 := Next(w1, events[1]);
    assert w2 == World([], map[0 := Found(pid, t, [], 0), 1 := Found(pid, t, [], 0)]);
    var w3 := Next(w2, events[2]);
    var w4 := Next(w3, events[3]);
    assert w4 == World([d, d], map[0 := Created(0, []), 1 := Created(1, [])]);
    var w5 := Next(w4, events[4]);
    assert w5 == World([d, d], map[1 := Created(1, [])]);
    assert Next(w5, events[5]) == World([d, d], map[]);
    RunStep(EMPTY, events);
    RunStep(w1, events[1..]);
    RunStep(w2, events[2..]);
    RunStep(w3, events[3..]);
    RunStep(w4, events[4..]);
    RunStep(w5, events[5..]);
  }

  lemma RunStep(w: World, events: seq<Event>)
    requires events != []
    ensures Run(w, events) == Run(Next(w, events[0]), events[1..])
  {
  }
}
