/** The bus in shared memory, used by one endpoint. */
module SharedBuses {
  import opened Bytes
  import opened Geometry
  import opened Regions
  import opened SimpleQueues
  import opened Buses

  datatype ControlBlock = ControlBlock(epoch: word, inputId: nat, outputId: nat)

  datatype Status = US_NONE | US_INPUT | US_OUTPUT | US_BOTH {
    predicate Input() { US_INPUT? || US_BOTH? }
    predicate Output() { US_OUTPUT? || US_BOTH? }
  }

  /** After the growth of the chain a push is what it was before. */
  lemma Retried(b: BusState, msg: Msg, creatable: set<nat>)
    requires BusOk(b) && !b.Output().Room(|msg.data|) && Buses.AddConnector(b, creatable).Some?
    ensures var g := Buses.AddConnector(b, creatable).value;
            && BusOk(g) && g.spec == b.spec && b.Output().cap < g.Output().cap
            && Buses.Push(b, msg, creatable) == Buses.Push(g, msg, creatable)
            && Accepts(b, |msg.data|, creatable) == Accepts(g, |msg.data|, creatable)
  {
    hide Used, End, Span, Contents, GrownCapacity, QState.Push, QState.Room, Buses.Push, Accepts;
    CanAlwaysAdd(b);
    GrowKeepsOk(b, creatable);
    Unfolded(b, msg, creatable);
  }

  lemma Unfolded(b: BusState, msg: Msg, creatable: set<nat>)
    requires b.chain != [] && b.Output().head < b.Output().cap && !b.Output().Room(|msg.data|) && CanAdd(b)
    requires Buses.AddConnector(b, creatable).Some?
    ensures var g := Buses.AddConnector(b, creatable).value;
            && g.chain != [] && g.Output().head < g.Output().cap
            && Buses.Push(b, msg, creatable) == Buses.Push(g, msg, creatable)
            && Accepts(b, |msg.data|, creatable) == Accepts(g, |msg.data|, creatable)
  {
    hide QState.Room, QState.Push, GrownCapacity;
  }

  /** What a pop comes to, seen from the oldest queue. */
  lemma PopNow(b: BusState)
    requires BusOk(b)
    ensures b.Input().cells != [] ==> Contents(b.chain) != [] && Buses.Pop(b) == PopInput(b)
    ensures b.Input().cells == [] && b.inputId == b.outputId ==> Contents(b.chain) == [] && Buses.Pop(b) == b
    ensures b.Input().cells == [] && b.inputId != b.outputId ==>
              var e := Buses.RemoveConnector(b);
              && BusOk(e) && |e.chain| < |b.chain|
              && Contents(e.chain) == Contents(b.chain) && Buses.Pop(e) == Buses.Pop(b)
  {
    hide Used, End, Span;
    CanAlwaysAdd(b);
    AdvanceKeepsOk(b);
    if b.Input().cells == [] && b.inputId != b.outputId {
      AdvanceKeepsOk(Buses.RemoveConnector(b));
    }
  }

  /** What a get comes to, seen from the oldest queue. */
  lemma GetNow(b: BusState)
    requires BusOk(b)
    ensures b.Input().cells != [] ==>
              Advance(b) == b && Contents(b.chain) != [] && Contents(b.chain)[0] == b.Input().cells[0].msg
    ensures b.Input().cells == [] && b.inputId == b.outputId ==> Contents(b.chain) == [] && Advance(b) == b
    ensures b.Input().cells == [] && b.inputId != b.outputId ==>
              var e := Buses.RemoveConnector(b);
              && BusOk(e) && |e.chain| < |b.chain| && Contents(e.chain) == Contents(b.chain) && Advance(e) == Advance(b)
  {
    hide Used, End, Span, QState.Pop, QState.Push;
    CanAlwaysAdd(b);
    AdvanceKeepsOk(b);
    if b.Input().cells == [] && b.inputId != b.outputId {
      AdvanceKeepsOk(Buses.RemoveConnector(b));
    }
  }

  class SharedBus {
    var enabled: bool
    var connectors: seq<Connector>
    var copy: ControlBlock
    var status: Status
    // the body in shared memory
    var spec: Specification
    var shared: ControlBlock

    ghost function Value(): BusState
      reads this
    {
      BusState(spec, connectors, shared.inputId, shared.outputId)
    }

    ghost predicate Valid()
      reads this
    {
      && status == US_NONE
      && (enabled ==> BusOk(Value()) && copy == shared.(epoch := copy.epoch))
      && (!enabled ==> connectors == [])
    }

    constructor ()
      ensures Valid() && !enabled
    {
      enabled, connectors, status := false, [], US_NONE;
      spec := Specification(0, 0, 0);
      shared := ControlBlock(0, 0, 0);
      copy := ControlBlock(0, 0, 0);
    }

    method Create(specification: Specification, creatable: set<nat>) returns (ok: bool)
      requires Valid() && specification.maxCapacity < WORDS - 1
      modifies this
      ensures Valid()
      ensures ok <==> !old(enabled) && 0 < specification.minCapacity && 0 < specification.maxCapacity && 0 in creatable
      ensures ok ==> enabled && Value() == Created(specification)
      ensures !ok ==> enabled == old(enabled) && (enabled ==> Value() == old(Value()))
    {
      if enabled {
        return false;
      }
      spec, shared := specification, ControlBlock(0, 0, 0);
      copy := shared;
      match MakeConnector(BusState(spec, connectors, 0, 0), 0, creatable) {
        case None => ok := false;
        case Some(c) => connectors, enabled, ok := [c], true, true;
      }
    }

    method IsUpdated() returns (r: bool)
      modifies this`copy
      ensures copy == old(copy).(epoch := shared.epoch) && (r <==> shared.epoch != old(copy).epoch)
    {
      r := shared.epoch != copy.epoch;
      if r {
        copy := copy.(epoch := shared.epoch);
      }
    }

    /** With one endpoint there is never anything to catch up with. */
    method UpdateConnectors() returns (r: Status)
      requires Valid() && enabled
      modifies this`copy
      ensures Valid() && r == US_NONE
    {
      var updated := IsUpdated();
      if updated {
        if shared.outputId != copy.outputId {
          assert false;
        }
        if shared.inputId != copy.inputId {
          assert false;
        }
        return status;
      }
      return US_NONE;
    }

    method AddConnector(creatable: set<nat>) returns (ok: bool)
      requires Valid() && enabled
      modifies this`connectors, this`shared, this`copy
      ensures Valid()
      ensures ok <==> Buses.AddConnector(old(Value()), creatable).Some?
      ensures Value() == if ok then Buses.AddConnector(old(Value()), creatable).value else old(Value())
    {
      GrowKeepsOkIfAny(Value(), creatable);
      var id := (shared.outputId + 1) % WORDS;
      match MakeConnector(BusState(spec, connectors, shared.inputId, shared.outputId), id, creatable) {
        case None => ok := false;
        case Some(c) =>
          connectors := [c] + connectors;
          shared := shared.(outputId := id, epoch := (shared.epoch + 1) % WORDS);
          if status == US_NONE {
            copy := copy.(outputId := shared.outputId);
          }
          ok := true;
      }
    }

    method RemoveConnector() returns (ok: bool)
      requires Valid() && enabled && shared.inputId != shared.outputId
      modifies this`connectors, this`shared, this`copy
      ensures Valid() && ok && Value() == Buses.RemoveConnector(old(Value()))
    {
      connectors := connectors[..|connectors| - 1];
      shared := shared.(inputId := (shared.inputId + 1) % WORDS, epoch := (shared.epoch + 1) % WORDS);
      if connectors == [] {
        assert false;
      }
      if status == US_NONE {
        copy := copy.(inputId := shared.inputId);
      }
      ok := true;
    }

    /** Writes the message once or not at all. */
    method DoPush(msg: Msg) returns (ok: bool)
      requires Valid() && enabled && 0 < |msg.data|
      modifies this`connectors, this`copy
      ensures Valid() && ok == old(Value()).Output().Room(|msg.data|)
      ensures Value() == if ok then PushOutput(old(Value()), msg) else old(Value())
    {
      var _ := UpdateConnectors();
      var again := true;
      while again
        invariant Valid() && Value() == if again then old(Value()) else PushOutput(old(Value()), msg)
        invariant !again ==> old(Value()).Output().Room(|msg.data|)
        decreases again
      {
        if !connectors[0].queue.Room(|msg.data|) {
          return false;
        }
        OutputKeepsOk(Value(), msg);
        connectors := connectors[0 := connectors[0].(queue := connectors[0].queue.Push(Cell(msg, 0)))];
        var updated := UpdateConnectors();
        again := updated.Output();
      }
      return true;
    }

    method Push(msg: Msg, creatable: set<nat>) returns (ok: bool)
      requires Valid() && 0 < |msg.data|
      modifies this`connectors, this`shared, this`copy
      ensures Valid()
      ensures ok <==> enabled && Accepts(old(Value()), |msg.data|, creatable)
      ensures Value() == if enabled then Buses.Step(old(Value()), Buses.OpPush(msg, creatable)) else old(Value())
      ensures enabled ==> Buses.Accepted(old(Value()), Buses.OpPush(msg, creatable)) == if ok then [msg] else []
    {
      hide Used, End, Span, Contents, Buses.AddConnector, QState.Push;
      if !enabled {
        return false;
      }
      ok := DoPush(msg);
      while !ok
        invariant Valid() && shared.outputId < WORDS - 1
        invariant ok ==> Accepts(old(Value()), |msg.data|, creatable)
                         && Value() == Buses.Push(old(Value()), msg, creatable)
        invariant !ok ==> !Value().Output().Room(|msg.data|)
        invariant !ok ==> Accepts(Value(), |msg.data|, creatable) == Accepts(old(Value()), |msg.data|, creatable)
        invariant !ok ==> Buses.Push(Value(), msg, creatable) == Buses.Push(old(Value()), msg, creatable)
        decreases !ok, spec.maxCapacity - connectors[0].queue.cap
      {
        if (shared.outputId + 1) % WORDS == shared.inputId {
          return false;
        }
        ghost var before := Value();
        var added := AddConnector(creatable);
        if !added {
          return false;
        }
        Retried(before, msg, creatable);
        ok := DoPush(msg);
      }
    }

    /** The oldest message of the oldest queue. */
    method DoGet() returns (m: Option<Msg>)
      requires Valid() && enabled
      modifies this`copy
      ensures Valid()
      ensures m == if Value().Input().cells == [] then None else Some(Value().Input().cells[0].msg)
    {
      var last := |connectors| - 1;
      m := if connectors[last].queue.cells == [] then None else Some(connectors[last].queue.cells[0].msg);
      if m == None {
        var updated := UpdateConnectors();
        if updated.Input() {
          assert false;
        }
      }
    }

    method Get() returns (m: Option<Msg>)
      requires Valid()
      modifies this`connectors, this`shared, this`copy
      ensures Valid()
      ensures m == if !enabled || Contents(old(connectors)) == [] then None else Some(Contents(old(connectors))[0])
      ensures Value() == if enabled then Buses.Step(old(Value()), Buses.OpGet) else old(Value())
    {
      hide Used, End, Span, Contents, Advance, ChainOk;
      if !enabled {
        return None;
      }
      m := DoGet();
      while m == None && shared.inputId != shared.outputId
        invariant Valid() && enabled && Advance(Value()) == Advance(old(Value()))
        invariant Contents(connectors) == Contents(old(connectors))
        invariant m == if Value().Input().cells == [] then None else Some(Value().Input().cells[0].msg)
        decreases |connectors|
      {
        GetNow(Value());
        var _ := RemoveConnector();
        m := DoGet();
      }
      GetNow(Value());
    }

    method DoPop() returns (ok: bool)
      requires Valid() && enabled
      modifies this`connectors, this`copy
      ensures Valid() && ok == (old(Value()).Input().cells != [])
      ensures Value() == if ok then PopInput(old(Value())) else old(Value())
    {
      var last := |connectors| - 1;
      ok := connectors[last].queue.cells != [];
      if ok {
        InputKeepsOk(Value());
        connectors := connectors[last := connectors[last].(queue := connectors[last].queue.Pop())];
      } else {
        var updated := UpdateConnectors();
        if updated.Input() {
          assert false;
        }
      }
    }

    method Pop() returns (ok: bool)
      requires Valid()
      modifies this`connectors, this`shared, this`copy
      ensures Valid()
      ensures ok <==> enabled && Contents(old(connectors)) != []
      ensures Value() == if enabled then Buses.Step(old(Value()), Buses.OpPop) else old(Value())
    {
      hide Used, End, Span, Contents, Advance, Buses.Pop, PopInput;
      if !enabled {
        return false;
      }
      PopNow(Value());
      ok := DoPop();
      while !ok
        invariant Valid() && enabled
        invariant ok ==> Contents(old(connectors)) != [] && Value() == Buses.Pop(old(Value()))
        invariant !ok ==> Value().Input().cells == [] && Buses.Pop(Value()) == Buses.Pop(old(Value()))
        invariant !ok ==> Contents(connectors) == Contents(old(connectors))
        decreases !ok, |connectors|
      {
        PopNow(Value());
        if shared.inputId == shared.outputId {
          return false;
        }
        var _ := RemoveConnector();
        PopNow(Value());
        ok := DoPop();
      }
    }
  }
}
