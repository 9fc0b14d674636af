/** What the background handlers of the sockets are, as a list in ring order, and which of them runs next. */
module HandlerList {
  import opened Basics

  datatype Condition = Readable | Writable | Exceptional

  datatype Handler = Handler(socketNum: int, conditionSet: set<Condition>, handlerProc: Option<nat>, clientData: nat)

  /** The first handler of a socket, or the end. */
  function Find(hs: seq<Handler>, socketNum: int): (k: nat)
    ensures k <= |hs| && (k < |hs| ==> hs[k].socketNum == socketNum)
    ensures forall i :: 0 <= i < k ==> hs[i].socketNum != socketNum
    decreases |hs|
  {
    if |hs| == 0 || hs[0].socketNum == socketNum then 0 else Find(hs[1..], socketNum) + 1
  }

  predicate Has(hs: seq<Handler>, socketNum: int) {
    Find(hs, socketNum) < |hs|
  }

  predicate Unique(hs: seq<Handler>) {
    forall i, j :: 0 <= i < j < |hs| ==> hs[i].socketNum != hs[j].socketNum
  }

  function Assigned(hs: seq<Handler>, h: Handler): seq<Handler> {
    var k := Find(hs, h.socketNum);
    if k < |hs| then hs[k := h] else [h] + hs
  }

  function Cleared(hs: seq<Handler>, socketNum: int): seq<Handler> {
    var k := Find(hs, socketNum);
    if k < |hs| then Without(hs, k) else hs
  }

  function Moved(hs: seq<Handler>, oldSocketNum: int, newSocketNum: int): seq<Handler> {
    var k := Find(hs, oldSocketNum);
    if k < |hs| then hs[k := hs[k].(socketNum := newSocketNum)] else hs
  }

  lemma FindAt(hs: seq<Handler>, k: nat)
    requires Unique(hs) && k < |hs|
    ensures Find(hs, hs[k].socketNum) == k
  {
    var f := Find(hs, hs[k].socketNum);
    assert f <= k;
  }

  lemma AssignedIsUnique(hs: seq<Handler>, h: Handler)
    requires Unique(hs)
    ensures Unique(Assigned(hs, h))
  {}

  lemma ClearedIsUnique(hs: seq<Handler>, socketNum: int)
    requires Unique(hs)
    ensures Unique(Cleared(hs, socketNum)) && !Has(Cleared(hs, socketNum), socketNum)
  {
    var k := Find(hs, socketNum);
    if k < |hs| {
      var rest := Without(hs, k);
      forall i | 0 <= i < |rest|
        ensures rest[i].socketNum != socketNum
      {
        assert rest[i] == hs[if i < k then i else i + 1];
      }
    }
  }

  /** Moving a handler keeps sockets unique exactly when no other handler has the new socket. */
  lemma MovedIsUnique(hs: seq<Handler>, oldSocketNum: int, newSocketNum: int)
    requires Unique(hs)
    ensures Unique(Moved(hs, oldSocketNum, newSocketNum))
       <==> (!Has(hs, oldSocketNum) || newSocketNum == oldSocketNum || !Has(hs, newSocketNum))
  {
    var k, n := Find(hs, oldSocketNum), Find(hs, newSocketNum);
    if k < |hs| && newSocketNum != oldSocketNum && n < |hs| {
      var moved := Moved(hs, oldSocketNum, newSocketNum);
      assert moved[k].socketNum == moved[n].socketNum && k != n;
    }
  }

  /** The handler of a socket. */
  function HandlerOf(hs: seq<Handler>, socketNum: int): Option<Handler> {
    var k := Find(hs, socketNum);
    if k < |hs| then Some(hs[k]) else None
  }

  /** Assigning sets the handler of one socket and no other. */
  lemma AssignedHandler(hs: seq<Handler>, h: Handler, s: int)
    ensures HandlerOf(Assigned(hs, h), s) == if s == h.socketNum then Some(h) else HandlerOf(hs, s)
  {
    var k, after := Find(hs, h.socketNum), Assigned(hs, h);
    var i, j := Find(hs, s), Find(after, s);
    if k < |hs| {
      if i < |hs| {
        assert after[i].socketNum == s;
      }
      if j < |hs| {
        assert hs[j].socketNum == s;
      }
    } else {
      assert after[1..] == hs;
    }
  }

  /** Clearing takes away the handler of one socket and no other. */
  lemma ClearedHandler(hs: seq<Handler>, o: int, s: int)
    requires Unique(hs)
    ensures HandlerOf(Cleared(hs, o), s) == if s == o then None else HandlerOf(hs, s)
  {
    var k, rest := Find(hs, o), Cleared(hs, o);
    var i, j := Find(hs, s), Find(rest, s);
    ClearedIsUnique(hs, o);
    if k < |hs| && s != o {
      if i < |hs| {
        assert rest[if i < k then i else i - 1].socketNum == s;
      }
      if j < |rest| {
        assert rest[j] == hs[if j < k then j else j + 1];
      }
    }
  }

  /** Moving gives a handler to the new socket, which had none, and leaves the old one without. */
  lemma MovedHandler(hs: seq<Handler>, o: int, n: int, s: int)
    requires Unique(hs) && Has(hs, o) && !Has(hs, n)
    ensures HandlerOf(Moved(hs, o, n), s)
         == if s == n then Some(hs[Find(hs, o)].(socketNum := n)) else if s == o then None else HandlerOf(hs, s)
  {
    var k, after := Find(hs, o), Moved(hs, o, n);
    var i, j := Find(hs, s), Find(after, s);
    if i < |hs| && i != k {
      assert after[i].socketNum == s;
    }
    if j < |hs| && j != k {
      assert hs[j].socketNum == s;
    }
    if s == n {
      assert after[k].socketNum == n;
    }
  }

  // ----- One step of the loop -----

  /** The sockets that select has found ready. */
  datatype Selection = Selection(readSet: set<int>, writeSet: set<int>, exceptionSet: set<int>)

  function Results(sel: Selection, sock: int): set<Condition> {
    (if sock in sel.readSet then {Readable} else {})
    + (if sock in sel.writeSet then {Writable} else {})
    + (if sock in sel.exceptionSet then {Exceptional} else {})
  }

  predicate Ready(h: Handler, sel: Selection) {
    Results(sel, h.socketNum) * h.conditionSet != {} && h.handlerProc.Some?
  }

  /** A handler with a procedure waits for a condition that its socket has. */
  predicate Awaited(h: Handler, readSet: set<int>, writeSet: set<int>, exceptionSet: set<int>) {
    && h.handlerProc.Some?
    && (|| (Readable in h.conditionSet && h.socketNum in readSet)
        || (Writable in h.conditionSet && h.socketNum in writeSet)
        || (Exceptional in h.conditionSet && h.socketNum in exceptionSet))
  }

  /** What is found for a socket, condition by condition, and who is ready for it. */
  lemma ReadyIsAwaited(h: Handler, sel: Selection)
    ensures var cs := Results(sel, h.socketNum);
            && (Readable in cs <==> h.socketNum in sel.readSet)
            && (Writable in cs <==> h.socketNum in sel.writeSet)
            && (Exceptional in cs <==> h.socketNum in sel.exceptionSet)
    ensures Ready(h, sel) <==> Awaited(h, sel.readSet, sel.writeSet, sel.exceptionSet)
    ensures Ready(h, sel) ==> Results(sel, h.socketNum) * h.conditionSet != {} && h.handlerProc.Some?
  {
    var cs := Results(sel, h.socketNum);
    if Ready(h, sel) {
      var c :| c in cs * h.conditionSet;
      assert c == Readable || c == Writable || c == Exceptional;
    }
    if Awaited(h, sel.readSet, sel.writeSet, sel.exceptionSet) {
      var c: Condition :| c in cs && c in h.conditionSet;
      assert c in cs * h.conditionSet;
    }
  }

  /** The first ready handler from `from` on, or the end. */
  function FirstReady(hs: seq<Handler>, sel: Selection, from: nat): (k: nat)
    requires from <= |hs|
    ensures from <= k <= |hs| && (k < |hs| ==> Ready(hs[k], sel))
    ensures forall i :: from <= i < k ==> !Ready(hs[i], sel)
    decreases |hs| - from
  {
    if from == |hs| || Ready(hs[from], sel) then from else FirstReady(hs, sel, from + 1)
  }

  /** Where the search starts: past the socket handled last, if it still has a handler. */
  function StartAt(hs: seq<Handler>, last: int): (k: nat)
    ensures k <= |hs|
  {
    if last >= 0 && Has(hs, last) then Find(hs, last) + 1 else 0
  }

  /** The handler that a step runs: the first ready one past the last handled, going round once. */
  function Choice(hs: seq<Handler>, last: int, sel: Selection): Option<nat> {
    var k := FirstReady(hs, sel, StartAt(hs, last));
    if k < |hs| then Some(k)
    else if last >= 0 && Has(hs, last) && FirstReady(hs, sel, 0) < |hs| then Some(FirstReady(hs, sel, 0))
    else None
  }

  function LastAfter(hs: seq<Handler>, last: int, sel: Selection): int {
    match Choice(hs, last, sel)
    case Some(k) => hs[k].socketNum
    case None => if last >= 0 then -1 else last
  }

  /** How far the search has to go to reach handler `k`. */
  function Distance(hs: seq<Handler>, last: int, k: nat): (d: int)
    requires k < |hs|
    ensures 1 <= d <= |hs|
  {
    var start := StartAt(hs, last);
    if k >= start then k - start + 1 else |hs| - start + k + 1
  }

  /** A step runs a handler if and only if one is ready; and no ready handler is nearer than the one it runs. */
  lemma NearestIsRun(hs: seq<Handler>, last: int, sel: Selection)
    requires Unique(hs)
    ensures Choice(hs, last, sel).Some? <==> exists k :: 0 <= k < |hs| && Ready(hs[k], sel)
    ensures Choice(hs, last, sel).Some? ==>
              && Ready(hs[Choice(hs, last, sel).value], sel)
              && forall k :: 0 <= k < |hs| && Ready(hs[k], sel) ==>
                 Distance(hs, last, Choice(hs, last, sel).value) <= Distance(hs, last, k)
  {
    hide Ready, Find;
  }

  /** Whatever the sockets, a step runs nothing only when no handler awaits what was found. */
  lemma SomeAwaitedIsRun(hs: seq<Handler>, last: int, sel: Selection)
    ensures match Choice(hs, last, sel)
            case Some(k) => k < |hs| && Awaited(hs[k], sel.readSet, sel.writeSet, sel.exceptionSet)
            case None => forall k :: 0 <= k < |hs| ==> !Awaited(hs[k], sel.readSet, sel.writeSet, sel.exceptionSet)
  {
    hide Ready, Find, Awaited;
    forall k | 0 <= k < |hs|
      ensures Ready(hs[k], sel) <==> Awaited(hs[k], sel.readSet, sel.writeSet, sel.exceptionSet)
    {
      ReadyIsAwaited(hs[k], sel);
    }
  }

  /** A ready handler is run, or is nearer after the step. */
  lemma StepBringsNearer(hs: seq<Handler>, last: int, sel: Selection, k: nat)
    requires Unique(hs) && (forall i :: 0 <= i < |hs| ==> hs[i].socketNum >= 0) && k < |hs| && Ready(hs[k], sel)
    ensures Choice(hs, last, sel) == Some(k) || Distance(hs, LastAfter(hs, last, sel), k) < Distance(hs, last, k)
  {
    hide Ready;
    NearestIsRun(hs, last, sel);
    FindAt(hs, Choice(hs, last, sel).value);
  }

  function LastAfterAll(hs: seq<Handler>, last: int, sels: seq<Selection>): int
    decreases |sels|
  {
    if |sels| == 0 then last else LastAfter(hs, LastAfterAll(hs, last, sels[..|sels| - 1]), sels[|sels| - 1])
  }

  /** Fairness: of N handlers, one that stays ready is run within N steps, whatever the others do. */
  lemma {:induction false} ServedInTime(hs: seq<Handler>, last: int, sels: seq<Selection>, k: nat) returns (step: nat)
    requires Unique(hs) && (forall i :: 0 <= i < |hs| ==> hs[i].socketNum >= 0)
    requires k < |hs| <= |sels| && forall i :: 0 <= i < |sels| ==> Ready(hs[k], sels[i])
    ensures step < |hs| && Choice(hs, LastAfterAll(hs, last, sels[..step]), sels[step]) == Some(k)
  {
    hide Ready, Choice, LastAfter, Distance, Find;
    step := 0;
    while Choice(hs, LastAfterAll(hs, last, sels[..step]), sels[step]) != Some(k)
      invariant step < |hs| && Distance(hs, LastAfterAll(hs, last, sels[..step]), k) + step <= |hs|
      decreases |hs| - step
    {
      var here := LastAfterAll(hs, last, sels[..step]);
      StepBringsNearer(hs, here, sels[step], k);
      assert sels[..step + 1][..step] == sels[..step];
      step := step + 1;
    }
  }
}

/** The doubly linked circular list of handler descriptors. */
module HandlerSet {
  import opened Basics
  import opened HandlerList

  class HandlerDescriptor {
    var fNextHandler: HandlerDescriptor?
    var fPrevHandler: HandlerDescriptor?
    var socketNum: int
    var conditionSet: set<Condition>
    var handlerProc: Option<nat>
    var clientData: nat

    ghost function Info(): Handler
      reads this`socketNum, this`conditionSet, this`handlerProc, this`clientData
    {
      Handler(socketNum, conditionSet, handlerProc, clientData)
    }

    /** A descriptor linked to itself. */
    constructor ()
      ensures fNextHandler == fPrevHandler == this && socketNum == -1
    {
      conditionSet, handlerProc, clientData, socketNum := {}, None, 0, -1;
      fNextHandler, fPrevHandler := this, this;
    }
  }

  ghost function Infos(list: seq<HandlerDescriptor>): (hs: seq<Handler>)
    reads list`socketNum, list`conditionSet, list`handlerProc, list`clientData
    ensures |hs| == |list| && forall i :: 0 <= i < |list| ==> hs[i] == list[i].Info()
  {
    if |list| == 0 then [] else Infos(list[..|list| - 1]) + [list[|list| - 1].Info()]
  }

  class HandlerSet {
    /** The list entry that the set itself is. */
    const fHandlers: HandlerDescriptor
    /** The circular list from the first handler round to `fHandlers`. */
    ghost var ring: seq<HandlerDescriptor>

    ghost predicate Valid()
      reads this, ring`fNextHandler, ring`fPrevHandler
    {
      && |ring| > 0 && ring[|ring| - 1] == fHandlers
      && (forall i, j :: 0 <= i < j < |ring| ==> ring[i] != ring[j])
      && fHandlers.fNextHandler == ring[0] && ring[0].fPrevHandler == fHandlers
      && (forall i {:trigger ring[i].fNextHandler} :: 0 <= i < |ring| - 1 ==> ring[i].fNextHandler == ring[i + 1])
      && (forall i {:trigger ring[i].fPrevHandler} :: 0 < i < |ring| ==> ring[i].fPrevHandler == ring[i - 1])
    }

    /** The handlers in ring order. */
    ghost function Contents(): (hs: seq<Handler>)
      reads this, ring`socketNum, ring`conditionSet, ring`handlerProc, ring`clientData
      ensures |ring| > 0 ==> |hs| == |ring| - 1 && forall i :: 0 <= i < |hs| ==> hs[i] == ring[i].Info()
    {
      if |ring| == 0 then [] else Infos(ring[..|ring| - 1])
    }

    constructor ()
      ensures Valid() && Contents() == [] && fresh(ring)
    {
      var s := new HandlerDescriptor();
      fHandlers := s;
      ring := [s];
    }

    /** The first descriptor of a socket, found by iterating. */
    method LookupHandler(socketNum: int) returns (handler: HandlerDescriptor?, ghost k: nat)
      requires Valid()
      ensures k == Find(Contents(), socketNum)
      ensures handler == var f := Find(Contents(), socketNum); if f < |ring| - 1 then ring[f] else null
    {
      hide HandlerDescriptor.Info, Infos, Find, HandlerSet.Contents, HandlerIterator.Valid;
      var iter := new HandlerIterator(this);
      k := 0;
      handler := iter.Next();
      ghost var hs := Contents();
      while handler != null && handler.socketNum != socketNum
        invariant iter.Valid() && iter.fOurSet == this && k <= |ring| - 1 && hs == Contents()
        invariant handler == if k < |ring| - 1 then ring[k] else null
        invariant iter.at == if k < |ring| - 1 then k + 1 else k
        invariant forall i :: 0 <= i < k ==> hs[i].socketNum != socketNum
        decreases |ring| - k
      {
        InfoSocket(handler);
        k := k + 1;
        handler := iter.Next();
      }
      if handler != null {
        InfoSocket(handler);
      }
    }

    method AssignHandler(socketNum: int, conditionSet: set<Condition>, handlerProc: Option<nat>, clientData: nat)
      requires Valid()
      modifies this, ring
      ensures Valid()
      ensures Contents() == Assigned(old(Contents()), Handler(socketNum, conditionSet, handlerProc, clientData))
      ensures forall d :: d in ring ==> d in old(ring) || fresh(d)
    {
      hide Find, Infos, HandlerDescriptor.Info;
      ghost var hs, h := Contents(), Handler(socketNum, conditionSet, handlerProc, clientData);
      var handler, k := LookupHandler(socketNum);
      if handler == null {
        handler := new HandlerDescriptor();
        LinkFirst(handler);
        Fill(handler, 0, h, socketNum, conditionSet, handlerProc, clientData);
        assert Contents() == [h] + hs;
      } else {
        InfoSocket(handler);
        Fill(handler, k, h, socketNum, conditionSet, handlerProc, clientData);
      }
    }

    method Fill(handler: HandlerDescriptor, ghost k: nat, ghost h: Handler,
                socketNum: int, conditionSet: set<Condition>, handlerProc: Option<nat>, clientData: nat)
      requires Valid() && k < |ring| - 1 && ring[k] == handler
      requires h == Handler(socketNum, conditionSet, handlerProc, clientData)
      modifies handler`socketNum, handler`conditionSet, handler`handlerProc, handler`clientData
      ensures Valid() && Contents()[k] == h
      ensures forall i :: 0 <= i < |ring| - 1 && i != k ==> Contents()[i] == old(ring[i].Info())
    {
      hide Infos;
      handler.socketNum := socketNum;
      handler.conditionSet := conditionSet;
      handler.handlerProc := handlerProc;
      handler.clientData := clientData;
    }

    /** Links a new descriptor in before the first. */
    method LinkFirst(handler: HandlerDescriptor)
      requires Valid() && handler !in ring
      modifies this`ring, handler`fNextHandler, handler`fPrevHandler, ring`fNextHandler, ring`fPrevHandler
      ensures Valid() && ring == [handler] + old(ring)
    {
      var nextHandler := fHandlers.fNextHandler;
      handler.fNextHandler := nextHandler;
      handler.fPrevHandler := nextHandler.fPrevHandler;
      nextHandler.fPrevHandler := handler;
      handler.fPrevHandler.fNextHandler := handler;
      ring := [handler] + ring;
    }

    /** Without a handler of that socket, nothing. */
    method ClearHandler(socketNum: int)
      requires Valid()
      modifies this`ring, ring`fNextHandler, ring`fPrevHandler
      ensures Valid() && Contents() == Cleared(old(Contents()), socketNum)
      ensures forall d :: d in ring ==> d in old(ring)
    {
      hide Find, Infos, HandlerDescriptor.Info, HandlerSet.Contents;
      var handler, k := LookupHandler(socketNum);
      if handler != null {
        ghost var hs := Contents();
        Unlink(handler, k);
        assert Contents() == Without(hs, k);
      }
    }

    /** What deleting a descriptor does to its neighbours. */
    method Unlink(handler: HandlerDescriptor, ghost k: nat)
      requires Valid() && k < |ring| - 1 && ring[k] == handler
      modifies this`ring, ring`fNextHandler, ring`fPrevHandler
      ensures Valid() && ring == Without(old(ring), k)
      ensures forall i :: 0 <= i < |ring| - 1 ==> Contents()[i] == old(Contents())[if i < k then i else i + 1]
    {
      hide Infos, HandlerDescriptor.Info;
      handler.fNextHandler.fPrevHandler := handler.fPrevHandler;
      handler.fPrevHandler.fNextHandler := handler.fNextHandler;
      ring := Without(ring, k);
    }

    method MoveHandler(oldSocketNum: int, newSocketNum: int)
      requires Valid()
      modifies ring`socketNum
      ensures Valid() && Contents() == Moved(old(Contents()), oldSocketNum, newSocketNum)
    {
      hide Find, Infos;
      var handler, k := LookupHandler(oldSocketNum);
      if handler != null {
        handler.socketNum := newSocketNum;
      }
    }
  }

  lemma InfoSocket(d: HandlerDescriptor)
    ensures d.Info().socketNum == d.socketNum
  {}

  class HandlerIterator {
    const fOurSet: HandlerSet
    var fNextPtr: HandlerDescriptor?
    ghost var at: nat

    ghost predicate Valid()
      reads this, fOurSet, fOurSet.ring
    {
      fOurSet.Valid() && at < |fOurSet.ring| && fNextPtr == fOurSet.ring[at]
    }

    constructor (handlerSet: HandlerSet)
      requires handlerSet.Valid()
      ensures fOurSet == handlerSet && Valid() && at == 0
    {
      fOurSet := handlerSet;
      fNextPtr := handlerSet.fHandlers.fNextHandler;
      at := 0;
    }

    method Reset()
      requires fOurSet.Valid()
      modifies this
      ensures Valid() && at == 0
    {
      fNextPtr := fOurSet.fHandlers.fNextHandler;
      at := 0;
    }

    method Next() returns (result: HandlerDescriptor?)
      requires Valid()
      modifies this
      ensures Valid()
      ensures result == if old(at) < |fOurSet.ring| - 1 then fOurSet.ring[old(at)] else null
      ensures at == if result == null then old(at) else old(at) + 1
    {
      result := fNextPtr;
      if result == fOurSet.fHandlers {
        result := null;
      } else {
        fNextPtr := fNextPtr.fNextHandler;
        at := at + 1;
      }
    }
  }
}
