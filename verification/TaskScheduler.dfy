/** The event loop's view of its sockets: which are watched, for what, and which handler a step runs. */
module TaskScheduler {
  import opened Basics
  import opened HandlerList
  import opened HandlerSet

  /** The handlers with the sets given to select. */
  datatype Watch = Watch(handlers: seq<Handler>, readSet: set<int>, writeSet: set<int>, exceptionSet: set<int>,
      maxNumSockets: int)

  /** Some handler of this socket waits for this condition. */
  predicate Wants(hs: seq<Handler>, socketNum: int, c: Condition) {
    Has(hs, socketNum) && c in hs[Find(hs, socketNum)].conditionSet
  }

  function Marked(socks: set<int>, socketNum: int, on: bool): set<int> {
    if on then socks + {socketNum} else socks - {socketNum}
  }

  function WithHandling(w: Watch, socketNum: int, conditionSet: set<Condition>, handlerProc: Option<nat>,
          clientData: nat): Watch {
    if socketNum < 0 then w
    else
      Watch(if conditionSet == {} then Cleared(w.handlers, socketNum)
            else Assigned(w.handlers, Handler(socketNum, conditionSet, handlerProc, clientData)),
            Marked(w.readSet, socketNum, Readable in conditionSet),
            Marked(w.writeSet, socketNum, Writable in conditionSet),
            Marked(w.exceptionSet, socketNum, Exceptional in conditionSet),
            if conditionSet == {}
            then (if socketNum + 1 == w.maxNumSockets then w.maxNumSockets - 1 else w.maxNumSockets)
            else if socketNum + 1 > w.maxNumSockets then socketNum + 1 else w.maxNumSockets)
  }

  function Transferred(socks: set<int>, oldSocketNum: int, newSocketNum: int): set<int> {
    if oldSocketNum in socks then socks - {oldSocketNum} + {newSocketNum} else socks
  }

  function WithMove(w: Watch, oldSocketNum: int, newSocketNum: int): Watch {
    if oldSocketNum < 0 || newSocketNum < 0 then w
    else
      var max := if oldSocketNum + 1 == w.maxNumSockets then w.maxNumSockets - 1 else w.maxNumSockets;
      Watch(Moved(w.handlers, oldSocketNum, newSocketNum), Transferred(w.readSet, oldSocketNum, newSocketNum),
            Transferred(w.writeSet, oldSocketNum, newSocketNum),
            Transferred(w.exceptionSet, oldSocketNum, newSocketNum),
            if newSocketNum + 1 > max then newSocketNum + 1 else max)
  }

  /** Sockets are unique and below the bound given to select, and each set holds just the sockets whose handler waits
      for it. */
  ghost predicate Agrees(w: Watch) {
    && Unique(w.handlers)
    && (forall i :: 0 <= i < |w.handlers| ==> 0 <= w.handlers[i].socketNum < w.maxNumSockets)
    && (forall s :: s in w.readSet <==> Wants(w.handlers, s, Readable))
    && (forall s :: s in w.writeSet <==> Wants(w.handlers, s, Writable))
    && (forall s :: s in w.exceptionSet <==> Wants(w.handlers, s, Exceptional))
  }

  lemma FindSame(hs: seq<Handler>, k: nat, h: Handler, s: int)
    requires k < |hs| && h.socketNum == hs[k].socketNum
    ensures Find(hs[k := h], s) == Find(hs, s)
  {
    var i, j := Find(hs, s), Find(hs[k := h], s);
    if i < |hs| {
      assert hs[k := h][i].socketNum == s;
    }
    if j < |hs| {
      assert hs[j].socketNum == s;
    }
  }

  lemma AssignedWants(hs: seq<Handler>, h: Handler, s: int, c: Condition)
    requires Unique(hs)
    ensures Wants(Assigned(hs, h), s, c) <==> if s == h.socketNum then c in h.conditionSet else Wants(hs, s, c)
  {
    var k := Find(hs, h.socketNum);
    if k < |hs| {
      FindSame(hs, k, h, s);
    } else {
      assert ([h] + hs)[1..] == hs;
    }
  }

  lemma WithoutWants(hs: seq<Handler>, k: nat, s: int, c: Condition)
    requires Unique(hs) && k < |hs|
    ensures Wants(Without(hs, k), s, c) <==> s != hs[k].socketNum && Wants(hs, s, c)
  {
    var rest := Without(hs, k);
    var i, j := Find(hs, s), Find(rest, s);
    if i < |hs| && i != k {
      assert rest[if i < k then i else i - 1].socketNum == s;
    }
    if j < |rest| {
      assert rest[j] == hs[if j < k then j else j + 1];
      FindAt(hs, if j < k then j else j + 1);
    }
  }

  lemma MovedWants(hs: seq<Handler>, o: int, n: int, s: int, c: Condition)
    requires Unique(hs) && (n == o || !Has(hs, n) || !Has(hs, o))
    ensures Wants(Moved(hs, o, n), s, c) <==>
              if !Has(hs, o) || n == o then Wants(hs, s, c) else if s == n then Wants(hs, o, c)
                  else s != o && Wants(hs, s, c)
  {
    var k := Find(hs, o);
    if k < |hs| {
      var moved := Moved(hs, o, n);
      MovedIsUnique(hs, o, n);
      if n == o {
        FindSame(hs, k, moved[k], s);
      } else {
        var i, j := Find(hs, s), Find(moved, s);
        if i < |hs| && i != k {
          assert moved[i].socketNum == s;
        }
        if j < |hs| && j != k {
          assert hs[j].socketNum == s;
          FindAt(hs, j);
        }
        FindAt(moved, k);
      }
    }
  }

  /** Setting or clearing a handler keeps handlers and sets in agreement. */
  lemma HandlingAgrees(w: Watch, socketNum: int, conditionSet: set<Condition>, handlerProc: Option<nat>,
          clientData: nat)
    requires Agrees(w)
    ensures Agrees(WithHandling(w, socketNum, conditionSet, handlerProc, clientData))
  {
    hide Find, Wants;
    var hs := w.handlers;
    if socketNum >= 0 {
      if conditionSet == {} {
        ClearedIsUnique(hs, socketNum);
        forall s, c
          ensures Wants(Cleared(hs, socketNum), s, c) <==> s != socketNum && Wants(hs, s, c)
        {
          ClearedWants(hs, socketNum, s, c);
        }
        ClearedBelow(hs, socketNum, w.maxNumSockets);
      } else {
        var h := Handler(socketNum, conditionSet, handlerProc, clientData);
        AssignedIsUnique(hs, h);
        forall s, c
          ensures Wants(Assigned(hs, h), s, c) <==> if s == socketNum then c in conditionSet else Wants(hs, s, c)
        {
          AssignedWants(hs, h, s, c);
        }
      }
    }
  }

  lemma ClearedWants(hs: seq<Handler>, socketNum: int, s: int, c: Condition)
    requires Unique(hs)
    ensures Wants(Cleared(hs, socketNum), s, c) <==> s != socketNum && Wants(hs, s, c)
  {
    var k := Find(hs, socketNum);
    if k < |hs| {
      WithoutWants(hs, k, s, c);
    }
  }

  lemma ClearedBelow(hs: seq<Handler>, socketNum: int, max: int)
    requires forall i :: 0 <= i < |hs| ==> 0 <= hs[i].socketNum < max
    requires Unique(hs)
    ensures var rest := Cleared(hs, socketNum);
            forall i :: 0 <= i < |rest| ==> 0 <= rest[i].socketNum < (if socketNum + 1 == max then max - 1 else max)
  {
    ClearedIsUnique(hs, socketNum);
    var k, rest := Find(hs, socketNum), Cleared(hs, socketNum);
    forall i | 0 <= i < |rest|
      ensures 0 <= rest[i].socketNum < max && rest[i].socketNum != socketNum
    {
      FindAt(rest, i);
      assert rest[i] == hs[if i < k then i else i + 1] || k == |hs|;
    }
  }

  /** Moving one keeps them so if and only if it is no move, or there is none to move, or the new socket has none. */
  lemma MoveAgrees(w: Watch, oldSocketNum: int, newSocketNum: int)
    requires Agrees(w)
    ensures Agrees(WithMove(w, oldSocketNum, newSocketNum)) <==>
              oldSocketNum < 0 || newSocketNum < 0 || newSocketNum == oldSocketNum
              || !Has(w.handlers, oldSocketNum) || !Has(w.handlers, newSocketNum)
  {
    hide Find, Wants;
    var hs := w.handlers;
    if oldSocketNum >= 0 && newSocketNum >= 0 {
      MovedIsUnique(hs, oldSocketNum, newSocketNum);
      if newSocketNum == oldSocketNum || !Has(hs, oldSocketNum) || !Has(hs, newSocketNum) {
        MoveKeepsAgreement(w, oldSocketNum, newSocketNum);
      }
    }
  }

  lemma MoveKeepsAgreement(w: Watch, oldSocketNum: nat, newSocketNum: nat)
    requires Agrees(w)
    requires newSocketNum == oldSocketNum || !Has(w.handlers, oldSocketNum) || !Has(w.handlers, newSocketNum)
    ensures Agrees(WithMove(w, oldSocketNum, newSocketNum))
  {
    hide Find, Wants;
    var hs := w.handlers;
    MovedIsUnique(hs, oldSocketNum, newSocketNum);
    forall s, c
      ensures Wants(Moved(hs, oldSocketNum, newSocketNum), s, c) <==>
                if !Has(hs, oldSocketNum) || newSocketNum == oldSocketNum then Wants(hs, s, c)
                else if s == newSocketNum then Wants(hs, oldSocketNum, c) else s != oldSocketNum && Wants(hs, s, c)
    {
      MovedWants(hs, oldSocketNum, newSocketNum, s, c);
    }
    NotWanted(hs, oldSocketNum);
    NotWanted(hs, newSocketNum);
    MovedBelow(hs, oldSocketNum, newSocketNum, w.maxNumSockets);
  }

  lemma NotWanted(hs: seq<Handler>, s: int)
    ensures !Has(hs, s) ==> forall c :: !Wants(hs, s, c)
  {}

  lemma MovedBelow(hs: seq<Handler>, o: int, n: int, max: int)
    requires (forall i :: 0 <= i < |hs| ==> 0 <= hs[i].socketNum < max) && Unique(hs) && n >= 0
    ensures var less := if o + 1 == max then max - 1 else max;
            forall i :: 0 <= i < |hs| ==> 0 <= Moved(hs, o, n)[i].socketNum < (if n + 1 > less then n + 1 else less)
  {
    forall i | 0 <= i < |hs| && hs[i].socketNum == o
      ensures i == Find(hs, o)
    {
      FindAt(hs, i);
    }
  }

  class BasicTaskScheduler {
    const fHandlers: HandlerSet
    var fLastHandledSocketNum: int
    var fReadSet: set<int>
    var fWriteSet: set<int>
    var fExceptionSet: set<int>
    var fMaxNumSockets: int

    ghost predicate Valid()
      reads this, fHandlers, fHandlers.ring
    {
      fHandlers.Valid()
    }

    ghost function State(): Watch
      reads this, fHandlers, fHandlers.ring
    {
      Watch(fHandlers.Contents(), fReadSet, fWriteSet, fExceptionSet, fMaxNumSockets)
    }

    constructor ()
      ensures Valid() && State() == Watch([], {}, {}, {}, 0) && fLastHandledSocketNum == -1 && Agrees(State())
      ensures fresh(fHandlers) && forall k :: 0 <= k < |fHandlers.ring| ==> fresh(fHandlers.ring[k])
    {
      fHandlers := new HandlerSet();
      fLastHandledSocketNum, fMaxNumSockets := -1, 0;
      fReadSet, fWriteSet, fExceptionSet := {}, {}, {};
    }

    method SetBackgroundHandling(socketNum: int, conditionSet: set<Condition>, handlerProc: Option<nat>,
            clientData: nat)
      requires Valid()
      modifies this, fHandlers, fHandlers.ring
      ensures Valid() && State() == WithHandling(old(State()), socketNum, conditionSet, handlerProc, clientData)
      ensures fLastHandledSocketNum == old(fLastHandledSocketNum)
      ensures forall k :: 0 <= k < |fHandlers.ring| ==>
                fHandlers.ring[k] in old(fHandlers.ring) || fresh(fHandlers.ring[k])
    {
      hide Assigned, Cleared, Marked, HandlerSet.Contents, HandlerSet.Valid;
      if socketNum >= 0 {
        if conditionSet == {} {
          fHandlers.ClearHandler(socketNum);
          if socketNum + 1 == fMaxNumSockets {
            fMaxNumSockets := fMaxNumSockets - 1;
          }
        } else {
          fHandlers.AssignHandler(socketNum, conditionSet, handlerProc, clientData);
          if socketNum + 1 > fMaxNumSockets {
            fMaxNumSockets := socketNum + 1;
          }
        }
        MarkSets(socketNum, conditionSet);
      }
    }

    /** The bits of a socket, cleared and then set for the conditions. */
    method MarkSets(socketNum: int, conditionSet: set<Condition>)
      modifies this`fReadSet, this`fWriteSet, this`fExceptionSet
      ensures fReadSet == Marked(old(fReadSet), socketNum, Readable in conditionSet)
      ensures fWriteSet == Marked(old(fWriteSet), socketNum, Writable in conditionSet)
      ensures fExceptionSet == Marked(old(fExceptionSet), socketNum, Exceptional in conditionSet)
    {
      fReadSet := fReadSet - {socketNum};
      fWriteSet := fWriteSet - {socketNum};
      fExceptionSet := fExceptionSet - {socketNum};
      if Readable in conditionSet {
        fReadSet := fReadSet + {socketNum};
      }
      if Writable in conditionSet {
        fWriteSet := fWriteSet + {socketNum};
      }
      if Exceptional in conditionSet {
        fExceptionSet := fExceptionSet + {socketNum};
      }
    }

    method MoveSocketHandling(oldSocketNum: int, newSocketNum: int)
      requires Valid()
      modifies this, fHandlers.ring
      ensures Valid() && State() == WithMove(old(State()), oldSocketNum, newSocketNum)
      ensures fLastHandledSocketNum == old(fLastHandledSocketNum)
    {
      hide Moved, Transferred, HandlerSet.Contents, HandlerSet.Valid;
      if oldSocketNum >= 0 && newSocketNum >= 0 {
        MoveSets(oldSocketNum, newSocketNum);
        fHandlers.MoveHandler(oldSocketNum, newSocketNum);
        if oldSocketNum + 1 == fMaxNumSockets {
          fMaxNumSockets := fMaxNumSockets - 1;
        }
        if newSocketNum + 1 > fMaxNumSockets {
          fMaxNumSockets := newSocketNum + 1;
        }
      }
    }

    /** The bits that are set for the old socket go over to the new one. */
    method MoveSets(oldSocketNum: int, newSocketNum: int)
      modifies this`fReadSet, this`fWriteSet, this`fExceptionSet
      ensures fReadSet == Transferred(old(fReadSet), oldSocketNum, newSocketNum)
      ensures fWriteSet == Transferred(old(fWriteSet), oldSocketNum, newSocketNum)
      ensures fExceptionSet == Transferred(old(fExceptionSet), oldSocketNum, newSocketNum)
    {
      if oldSocketNum in fReadSet {
        fReadSet := fReadSet - {oldSocketNum} + {newSocketNum};
      }
      if oldSocketNum in fWriteSet {
        fWriteSet := fWriteSet - {oldSocketNum} + {newSocketNum};
      }
      if oldSocketNum in fExceptionSet {
        fExceptionSet := fExceptionSet - {oldSocketNum} + {newSocketNum};
      }
    }

    /** What select found, among the sockets watched. */
    function Selected(readSet: set<int>, writeSet: set<int>, exceptionSet: set<int>): Selection
      reads this`fReadSet, this`fWriteSet, this`fExceptionSet
    {
      Selection(readSet * fReadSet, writeSet * fWriteSet, exceptionSet * fExceptionSet)
    }

    /** The socket part of a step: the handler to be called, with the conditions found for it, or none. */
    method SingleStep(readSet: set<int>, writeSet: set<int>, exceptionSet: set<int>)
            returns (run: Option<(Handler, set<Condition>)>)
      requires Valid()
      modifies this`fLastHandledSocketNum
      ensures Valid()
      ensures var hs := fHandlers.Contents();
              var sel := Selected(readSet, writeSet, exceptionSet);
              && fLastHandledSocketNum == LastAfter(hs, old(fLastHandledSocketNum), sel)
              && run == match Choice(hs, old(fLastHandledSocketNum), sel)
                        case Some(k) => Some((hs[k], Results(sel, hs[k].socketNum)))
                        case None => None
      ensures run.Some? ==>
                var (h, cs) := run.value;
                && h in fHandlers.Contents() && h.handlerProc.Some? && cs * h.conditionSet != {}
                && (Readable in cs <==> h.socketNum in readSet * fReadSet)
                && (Writable in cs <==> h.socketNum in writeSet * fWriteSet)
                && (Exceptional in cs <==> h.socketNum in exceptionSet * fExceptionSet)
      ensures var hs := fHandlers.Contents();
              run.None? <==> forall k :: 0 <= k < |hs| ==>
                !Awaited(hs[k], readSet * fReadSet, writeSet * fWriteSet, exceptionSet * fExceptionSet)
    {
      hide Find, Choice, Results, Ready, Awaited, HandlerSet.Contents, HandlerSet.Valid, HandlerDescriptor.Info;
      var sel := Selected(readSet, writeSet, exceptionSet);
      SomeAwaitedIsRun(fHandlers.Contents(), fLastHandledSocketNum, sel);
      var handler, k := Search(sel);
      if handler == null {
        run := None;
      } else {
        fLastHandledSocketNum := handler.socketNum;
        InfoFields(handler);
        ReadyIsAwaited(handler.Info(), sel);
        run := Some((Handler(handler.socketNum, handler.conditionSet, handler.handlerProc, handler.clientData),
                     Results(sel, handler.socketNum)));
      }
    }

    /** The search of a step, from past the socket handled last and then from the beginning. */
    method Search(sel: Selection) returns (handler: HandlerDescriptor?, ghost k: nat)
      requires Valid()
      modifies this`fLastHandledSocketNum
      ensures var hs := fHandlers.Contents();
              match Choice(hs, old(fLastHandledSocketNum), sel)
              case Some(c) => k == c && handler != null && c < |hs| && handler.Info() == hs[c]
              case None => handler == null && fLastHandledSocketNum == LastAfter(hs, old(fLastHandledSocketNum), sel)
    {
      hide Has, StartAt, FirstReady, Choice, HandlerSet.Contents, HandlerSet.Valid, HandlerIterator.Valid,
           HandlerDescriptor.Info;
      ghost var hs, last := fHandlers.Contents(), fLastHandledSocketNum;
      var iter := BeginSearch();
      handler, k := SearchReady(iter, sel);
      ChoiceCases(hs, last, sel);
      if handler == null && fLastHandledSocketNum >= 0 {
        iter.Reset();
        handler, k := SearchReady(iter, sel);
        if handler == null {
          fLastHandledSocketNum := -1;
        }
      }
    }

    /** An iterator past the socket handled last, which is forgotten if it has no handler any more. */
    method BeginSearch() returns (iter: HandlerIterator)
      requires Valid()
      modifies this`fLastHandledSocketNum
      ensures fresh(iter) && iter.Valid() && iter.fOurSet == fHandlers
      ensures var hs, last := fHandlers.Contents(), old(fLastHandledSocketNum);
              && iter.at == StartAt(hs, last)
              && fLastHandledSocketNum == if last >= 0 && !Has(hs, last) then -1 else last
    {
      hide Find, HandlerSet.Contents, HandlerSet.Valid, HandlerIterator.Valid;
      iter := new HandlerIterator(fHandlers);
      if fLastHandledSocketNum >= 0 {
        var found := PastLast(iter);
        if !found {
          fLastHandledSocketNum := -1;
          iter.Reset();
        }
      }
    }

    /** Steps past the socket handled last, if it is there. */
    method PastLast(iter: HandlerIterator) returns (found: bool)
      requires Valid() && iter.Valid() && iter.fOurSet == fHandlers && iter.at == 0
      modifies iter
      ensures iter.Valid() && found == Has(fHandlers.Contents(), fLastHandledSocketNum)
      ensures found ==> iter.at == Find(fHandlers.Contents(), fLastHandledSocketNum) + 1
    {
      hide Find, HandlerDescriptor.Info, HandlerSet.Contents, HandlerSet.Valid;
      ghost var hs, k := fHandlers.Contents(), 0;
      var handler := iter.Next();
      while handler != null && handler.socketNum != fLastHandledSocketNum
        invariant iter.Valid() && k <= |hs|
        invariant handler == if k < |hs| then fHandlers.ring[k] else null
        invariant iter.at == if k < |hs| then k + 1 else k
        invariant forall i :: 0 <= i < k ==> hs[i].socketNum != fLastHandledSocketNum
        decreases |hs| - k
      {
        InfoSocket(handler);
        k := k + 1;
        handler := iter.Next();
      }
      if handler != null {
        InfoSocket(handler);
      }
      found := handler != null;
    }

    /** The first ready handler from here on. */
    method SearchReady(iter: HandlerIterator, sel: Selection) returns (handler: HandlerDescriptor?, ghost k: nat)
      requires Valid() && iter.Valid() && iter.fOurSet == fHandlers
      modifies iter
      ensures iter.Valid()
      ensures var hs := fHandlers.Contents();
              && k == FirstReady(hs, sel, old(iter.at))
              && (handler == null <==> k == |hs|) && (handler != null ==> handler.Info() == hs[k])
    {
      hide HandlerDescriptor.Info, FirstReady, Results, HandlerSet.Contents, HandlerSet.Valid;
      ghost var hs := fHandlers.Contents();
      k := iter.at;
      handler := iter.Next();
      while handler != null && !(Results(sel, handler.socketNum) * handler.conditionSet != {}
          && handler.handlerProc.Some?)
        invariant iter.Valid() && old(iter.at) <= k <= |hs|
        invariant handler == if k < |hs| then fHandlers.ring[k] else null
        invariant iter.at == if k < |hs| then k + 1 else k
        invariant forall i :: old(iter.at) <= i < k ==> !Ready(hs[i], sel)
        decreases |hs| - k
      {
        ReadyHere(handler, sel);
        k := k + 1;
        handler := iter.Next();
      }
      if handler != null {
        ReadyHere(handler, sel);
      }
    }
  }

  lemma ChoiceCases(hs: seq<Handler>, last: int, sel: Selection)
    ensures var first, again := FirstReady(hs, sel, StartAt(hs, last)), last >= 0 && Has(hs, last);
            && (first < |hs| ==> Choice(hs, last, sel) == Some(first))
            && (first == |hs| && !again ==> Choice(hs, last, sel) == None)
            && (first == |hs| && again ==>
                  Choice(hs, last, sel) == if FirstReady(hs, sel, 0) < |hs| then Some(FirstReady(hs, sel, 0)) else None)
  {}

  lemma InfoFields(d: HandlerDescriptor)
    ensures d.Info() == Handler(d.socketNum, d.conditionSet, d.handlerProc, d.clientData)
  {}

  lemma ReadyHere(d: HandlerDescriptor, sel: Selection)
    ensures Ready(d.Info(), sel) <==> Results(sel, d.socketNum) * d.conditionSet != {} && d.handlerProc.Some?
  {}
}
