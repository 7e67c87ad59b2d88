/**
 The part of the HSSPI driver guarded by its spinlock: the work list, the layer table and the run state.
 Each function below is one locked region; the class runs them on fields updated in place.
 */
module HsspiCore {
  import opened Errno

  const LAYERS: nat := 6

  datatype Option<T> = None | Some(value: T)

  /** An upper layer: its slot number and the identity of the object. */
  datatype Layer = Layer(id: nat, name: nat)

  /**
   A transmit job. `serial` and `gen` are instrumentation: the place of the job in acceptance order, and the
   number of times its layer had been registered when the job was accepted.
   */
  datatype Tx = Tx(serial: nat, blk: nat, length: nat, layer: Layer, gen: nat)

  /** A queued job: a block to send, or a completion some caller waits for. */
  datatype Work = WorkTx(tx: Tx) | WorkDone(call: nat)

  datatype RunState = Running | Error | Stopped

  datatype Core = Core(work: seq<Work>, layers: seq<Option<Layer>>, state: RunState) {
    predicate WellFormed() {
      |layers| == LAYERS
      && forall i :: 0 <= i < LAYERS && layers[i].Some? ==> layers[i].value.id == i
    }

    predicate Registered(l: Layer)
      requires |layers| == LAYERS
    {
      l.id < LAYERS && layers[l.id] == Some(l)
    }
  }

  const INITIAL: Core := Core([], [None, None, None, None, None, None], Stopped)

  function Register(c: Core, l: Layer): (Core, int)
    requires c.WellFormed()
  {
    if l.id >= LAYERS then (c, -EINVAL)
    else if c.layers[l.id].Some? then (c, -EBUSY)
    else (c.(layers := c.layers[l.id := Some(l)]), 0)
  }

  function Unregister(c: Core, l: Layer, call: nat): (Core, int)
    requires c.WellFormed()
  {
    if c.Registered(l) then (c.(layers := c.layers[l.id := None], work := c.work + [WorkDone(call)]), 0)
    else (c, -EINVAL)
  }

  function Send(c: Core, tx: Tx): (Core, int)
    requires c.WellFormed()
  {
    if tx.layer.id >= LAYERS then (c, -EINVAL)
    else if !c.state.Running? then (c, -EAGAIN)
    else if !c.Registered(tx.layer) then (c, -EINVAL)
    else (c.(work := c.work + [WorkTx(tx)]), 0)
  }

  function Start(c: Core): Core {
    c.(state := Running)
  }

  function Stop(c: Core, call: nat): Core {
    c.(state := Stopped, work := c.work + [WorkDone(call)])
  }

  function GetWork(c: Core): (Option<Work>, Core) {
    if c.work == [] then (None, c) else (Some(c.work[0]), c.(work := c.work[1..]))
  }

  /** The checks of `hsspi_deinit`: stopped, and every layer unregistered. */
  predicate CanDeinit(c: Core) {
    !c.state.Running? && forall i :: 0 <= i < |c.layers| ==> c.layers[i].None?
  }

  /** A slot is taken once: the call fails for a number beyond the table, or a slot in use, and then changes nothing. */
  lemma RegisterOutcome(c: Core, l: Layer)
    requires c.WellFormed()
    ensures var (r, ret) := Register(c, l);
            && (ret == 0 <==> l.id < 6 && c.layers[l.id] == None)
            && (ret == -22 <==> l.id >= 6) && (ret != 0 ==> r == c && (ret == -22 || ret == -16))
            && (ret == 0 ==>
                  && r.Registered(l) && r.work == c.work && r.state == c.state
                  && forall i :: 0 <= i < 6 && i != l.id ==> r.layers[i] == c.layers[i])
  {
  }

  /** Only what is registered can be unregistered; the slot is then free, and a completion is last in the queue. */
  lemma UnregisterOutcome(c: Core, l: Layer, call: nat)
    requires c.WellFormed()
    ensures var (r, ret) := Unregister(c, l, call);
            && (ret == 0 <==> l.id < 6 && c.layers[l.id] == Some(l))
            && (ret != 0 ==> r == c && ret == -22)
            && (ret == 0 ==>
                  && r.layers[l.id] == None && r.work == c.work + [WorkDone(call)] && r.state == c.state
                  && (forall i :: 0 <= i < 6 && i != l.id ==> r.layers[i] == c.layers[i])
                  && Register(r, l) == (c.(work := r.work), 0))
  {
    var (r, ret) := Unregister(c, l, call);
    if ret == 0 {
      assert r.layers[l.id := Some(l)] == c.layers;
    }
  }

  /** A block is accepted only for a registered layer of a running engine; each refusal has its number. */
  lemma SendOutcome(c: Core, tx: Tx)
    requires c.WellFormed()
    ensures var (r, ret) := Send(c, tx);
            && (ret == 0 <==> tx.layer.id < 6 && c.state == Running && c.layers[tx.layer.id] == Some(tx.layer))
            && (ret == -11 <==> tx.layer.id < 6 && c.state != Running)
            && (ret != 0 ==> r == c && (ret == -22 || ret == -11))
            && (ret == 0 ==> r == c.(work := c.work + [WorkTx(tx)]))
  {
  }

  class Hsspi {
    var work: seq<Work>
    var layers: array<Option<Layer>>
    var state: RunState

    ghost predicate Valid()
      reads this, layers
    {
      View().WellFormed()
    }

    ghost function View(): Core
      reads this, layers
    {
      Core(work, layers[..], state)
    }

    constructor ()
      ensures Valid() && View() == INITIAL && fresh(layers)
    {
      work := [];
      layers := new Option<Layer>[LAYERS](_ => None);
      state := Stopped;
    }

    method RegisterLayer(l: Layer) returns (ret: int)
      requires Valid()
      modifies layers
      ensures Valid() && (View(), ret) == Register(old(View()), l)
    {
      ret := 0;
      if !(l.id < layers.Length) {
        return -EINVAL;
      }
      if layers[l.id].Some? {
        ret := -EBUSY;
      } else {
        layers[l.id] := Some(l);
        assert layers[..] == old(layers[..])[l.id := Some(l)];
      }
    }

    method UnregisterLayer(l: Layer, call: nat) returns (ret: int)
      requires Valid()
      modifies this`work, layers
      ensures Valid() && (View(), ret) == Unregister(old(View()), l, call)
    {
      ret := 0;
      if !(l.id < layers.Length) {
        return -EINVAL;
      }
      if layers[l.id] == Some(l) {
        layers[l.id] := None;
        work := work + [WorkDone(call)];
        assert layers[..] == old(layers[..])[l.id := None];
      } else {
        ret := -EINVAL;
      }
    }

    /** `granted`: whether the job could be allocated. */
    method SendBlock(tx: Tx, granted: bool) returns (ret: int)
      requires Valid()
      modifies this`work
      ensures Valid()
      ensures tx.layer.id < LAYERS && !granted ==> ret == -12 && View() == old(View())
      ensures tx.layer.id >= LAYERS || granted ==> (View(), ret) == Send(old(View()), tx)
    {
      if !(tx.layer.id < layers.Length) {
        return -EINVAL;
      }
      if !granted {
        return -ENOMEM;
      }
      ret := 0;
      if state == Running {
        if layers[tx.layer.id] == Some(tx.layer) {
          work := work + [WorkTx(tx)];
        } else {
          ret := -EINVAL;
        }
      } else {
        ret := -EAGAIN;
      }
    }

    method StartEngine()
      requires Valid()
      modifies this`state
      ensures Valid() && View() == Start(old(View()))
    {
      state := Running;
    }

    method StopEngine(call: nat)
      requires Valid()
      modifies this`state, this`work
      ensures Valid() && View() == Stop(old(View()), call)
    {
      state := Stopped;
      work := work + [WorkDone(call)];
    }

    method TakeWork() returns (hw: Option<Work>)
      requires Valid()
      modifies this`work
      ensures Valid() && (hw, View()) == GetWork(old(View()))
    {
      hw := None;
      if work != [] {
        hw := Some(work[0]);
        work := work[1..];
      }
    }

    /** The layer scan of `hsspi_deinit`. */
    method CheckDeinit() returns (ret: int)
      requires Valid()
      ensures ret == if CanDeinit(View()) then 0 else -16
    {
      if state == Running {
        return -EBUSY;
      }
      for i := 0 to layers.Length
        invariant forall k :: 0 <= k < i ==> layers[k].None?
      {
        if layers[i].Some? {
          assert View().layers[i].Some?;
          return -EBUSY;
        }
      }
      ret := 0;
    }
  }
}
