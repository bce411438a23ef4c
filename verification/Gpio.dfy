// The change-driven GPIO network: virtual pins push their changes through transformers.
module Gpio {

  datatype PinState = On | Off | Unset

  datatype Kind = Unary | Not | And | Or | Xor

  // A pin as its users see it. Splitters never change, so they are values.
  datatype GpioPin =
    | Hw(hw: GpioHwPin)
    | Virt(virt: GpioVirtPin)
    | Splitter(outPin1: GpioPin, outPin2: GpioPin)

  class GpioHwPin {
    var level: PinState   // last digitalWrite, Unset before the first

    constructor ()
      ensures level == Unset
    {
      level := Unset;
    }
  }

  class GpioVirtPin {
    var value: PinState
    var dependentPin: GpioTransformer?

    constructor ()
      ensures value == Unset && dependentPin == null
    {
      value, dependentPin := Unset, null;
    }
  }

  class GpioTransformer {
    const kind: Kind
    const inPin1: GpioVirtPin
    const inPin2: GpioVirtPin   // inPin1 again for the one-input kinds
    const outPin: GpioPin

    // The constructor's assertions: an input feeds at most one transformer.
    constructor OneInput(kind: Kind, inPin: GpioVirtPin, outPin: GpioPin)
      requires kind == Unary || kind == Not
      requires inPin.dependentPin == null
      modifies inPin`dependentPin
      ensures this.kind == kind && this.inPin1 == this.inPin2 == inPin && this.outPin == outPin
      ensures inPin.dependentPin == this
    {
      this.kind, this.inPin1, this.inPin2, this.outPin := kind, inPin, inPin, outPin;
      new;
      inPin.dependentPin := this;
    }

    constructor TwoInputs(kind: Kind, inPin1: GpioVirtPin, inPin2: GpioVirtPin, outPin: GpioPin)
      requires kind == And || kind == Or || kind == Xor
      requires inPin1 != inPin2 && inPin1.dependentPin == null && inPin2.dependentPin == null
      modifies inPin1`dependentPin, inPin2`dependentPin
      ensures this.kind == kind && this.inPin1 == inPin1 && this.inPin2 == inPin2 && this.outPin == outPin
      ensures inPin1.dependentPin == this && inPin2.dependentPin == this
    {
      this.kind, this.inPin1, this.inPin2, this.outPin := kind, inPin1, inPin2, outPin;
      new;
      inPin1.dependentPin := this;
      inPin2.dependentPin := this;
    }
  }

  // ---- Boolean meaning --------------------------------------------------------------------

  function Level(value: bool): PinState {
    if value then On else Off
  }

  // The bool a PinState converts to: On is 1, Off is 0, Unset is 2.
  function Truth(p: PinState): bool {
    p != Off
  }

  // What a transformer should drive: nothing until an input is set; an unset input of a
  // two-input transformer is ignored.
  function Meaning(kind: Kind, p1: PinState, p2: PinState): PinState {
    if p1 == Unset then (if kind == Unary || kind == Not then Unset else p2)
    else if kind == Unary then p1
    else if kind == Not then Level(p1 == Off)
    else if p2 == Unset then p1
    else match kind
         case And => Level(p1 == On && p2 == On)
         case Or => Level(p1 == On || p2 == On)
         case Xor => Level(p1 != p2)
  }

  // ---- Topology -----------------------------------------------------------------------------

  function Virts(pin: GpioPin): set<GpioVirtPin> {
    match pin
    case Hw(_) => {}
    case Virt(v) => {v}
    case Splitter(a, b) => Virts(a) + Virts(b)
  }

  function Hws(pin: GpioPin): set<GpioHwPin> {
    match pin
    case Hw(h) => {h}
    case Virt(_) => {}
    case Splitter(a, b) => Hws(a) + Hws(b)
  }

  // A network: its objects, and a rank that witnesses the absence of cycles.
  datatype Network = Network(
    virts: set<GpioVirtPin>,
    hws: set<GpioHwPin>,
    transformers: set<GpioTransformer>,
    rank: map<GpioTransformer, nat>,
    height: nat)

  // One transformer: its inputs read it, its outputs exist and lead upwards only.
  ghost predicate WiredAt(net: Network, t: GpioTransformer)
    requires t in net.rank
    reads net.virts`dependentPin
  {
    && net.rank[t] < net.height
    && t.inPin1 in net.virts && t.inPin2 in net.virts
    && t.inPin1.dependentPin == t && t.inPin2.dependentPin == t
    && ((t.kind == Unary || t.kind == Not) ==> t.inPin1 == t.inPin2)
    && Virts(t.outPin) <= net.virts && Hws(t.outPin) <= net.hws
    && forall v :: v in Virts(t.outPin) && v.dependentPin != null && v.dependentPin in net.rank ==>
         net.rank[t] < net.rank[v.dependentPin]
  }

  // One virtual pin: what it feeds is a transformer that has it for an input.
  ghost predicate ReadBy(net: Network, v: GpioVirtPin)
    reads v`dependentPin
  {
    v.dependentPin != null ==>
      v.dependentPin in net.transformers && (v == v.dependentPin.inPin1 || v == v.dependentPin.inPin2)
  }

  // One driver per output.
  ghost predicate Apart(p: GpioPin, q: GpioPin) {
    Virts(p) !! Virts(q) && Hws(p) !! Hws(q)
  }

  ghost predicate Wired(net: Network)
    reads net.virts`dependentPin
  {
    && net.rank.Keys == net.transformers
    && (forall t :: t in net.transformers ==> WiredAt(net, t))
    && (forall v :: v in net.virts ==> ReadBy(net, v))
    && (forall t, u :: t in net.transformers && u in net.transformers && t != u ==> Apart(t.outPin, u.outPin))
  }

  // Everything the pin leads to shows p.
  ghost predicate Shows(pin: GpioPin, p: PinState)
    reads Virts(pin)`value, Hws(pin)`level
  {
    (forall v :: v in Virts(pin) ==> v.value == p) && (forall h :: h in Hws(pin) ==> h.level == p)
  }

  ghost predicate Settled(t: GpioTransformer)
    reads t.inPin1`value, t.inPin2`value, Virts(t.outPin)`value, Hws(t.outPin)`level
  {
    Shows(t.outPin, Meaning(t.kind, t.inPin1.value, t.inPin2.value))
  }

  // Nothing driven by a transformer of rank k or more drives v.
  ghost predicate Above(net: Network, v: GpioVirtPin, k: nat)
    requires net.rank.Keys == net.transformers
  {
    forall t :: t in net.transformers && v in Virts(t.outPin) ==> net.rank[t] < k
  }

  ghost predicate AboveHw(net: Network, h: GpioHwPin, k: nat)
    requires net.rank.Keys == net.transformers
  {
    forall t :: t in net.transformers && h in Hws(t.outPin) ==> net.rank[t] < k
  }

  // Every transformer reading from pin has rank k or more.
  ghost predicate Feeds(net: Network, pin: GpioPin, k: nat)
    requires net.rank.Keys == net.transformers
    reads Virts(pin)`dependentPin
  {
    && Virts(pin) <= net.virts && Hws(pin) <= net.hws
    && forall v :: v in Virts(pin) && v.dependentPin != null && v.dependentPin in net.transformers ==>
         net.rank[v.dependentPin] >= k
  }

  ghost predicate DrivenBelow(net: Network, pin: GpioPin, k: nat)
    requires net.rank.Keys == net.transformers
  {
    && (forall v :: v in Virts(pin) ==> Above(net, v, k))
    && (forall h :: h in Hws(pin) ==> AboveHw(net, h, k))
  }

  // GpioPin::set. Everything pin leads to shows the value; whatever was settled stays so,
  // transformers driving into pin aside; nothing of rank below k is touched.
  method Set(pin: GpioPin, value: bool, ghost net: Network, ghost k: nat)
    requires Wired(net) && k <= net.height
    requires Feeds(net, pin, k)
    requires DrivenBelow(net, pin, k)
    modifies net.virts`value, net.hws`level
    ensures Shows(pin, Level(value))
    ensures forall t | t in net.transformers && Virts(t.outPin) !! Virts(pin) && Hws(t.outPin) !! Hws(pin) ::
              old(Settled(t)) ==> Settled(t)
    ensures forall v :: v in net.virts && v !in Virts(pin) && Above(net, v, k) ==> v.value == old(v.value)
    ensures forall h :: h in net.hws && h !in Hws(pin) && AboveHw(net, h, k) ==> h.level == old(h.level)
    decreases net.height - k, 1, pin
  {
    match pin
    case Hw(h) =>
      h.level := Level(value);
    case Virt(v) =>
      SetVirt(v, value, net, k);
    case Splitter(a, b) =>
      Set(a, value, net, k);
      Set(b, value, net, k);
  }

  method SetVirt(pin: GpioVirtPin, value: bool, ghost net: Network, ghost k: nat)
    requires Wired(net) && k <= net.height
    requires Feeds(net, Virt(pin), k)
    requires DrivenBelow(net, Virt(pin), k)
    modifies net.virts`value, net.hws`level
    ensures pin.value == Level(value)
    ensures forall t :: t in net.transformers && old(Settled(t)) && pin !in Virts(t.outPin) ==> Settled(t)
    ensures forall v :: v in net.virts && v != pin && Above(net, v, k) ==> v.value == old(v.value)
    ensures forall h :: h in net.hws && AboveHw(net, h, k) ==> h.level == old(h.level)
    decreases net.height - k, 0, 1, 0
  {
    if Level(value) != pin.value {
      pin.value := Level(value);
      var d := pin.dependentPin;
      if d != null {
        assert pin in Virts(Virt(pin));
        Update(d, net);
      }
    }
  }

  // GpioTransformer::set
  method Drive(t: GpioTransformer, value: bool, ghost net: Network)
    requires Wired(net) && t in net.transformers
    modifies net.virts`value, net.hws`level
    ensures Shows(t.outPin, Level(value))
    ensures t.inPin1.value == old(t.inPin1.value) && t.inPin2.value == old(t.inPin2.value)
    ensures forall u :: u in net.transformers && u != t && old(Settled(u)) ==> Settled(u)
    ensures forall v :: v in net.virts && Above(net, v, net.rank[t]) ==> v.value == old(v.value)
    ensures forall h :: h in net.hws && AboveHw(net, h, net.rank[t]) ==> h.level == old(h.level)
    decreases net.height - net.rank[t], 0, 0, 0
  {
    Set(t.outPin, value, net, net.rank[t] + 1);
  }

  // The three update methods.
  method Update(t: GpioTransformer, ghost net: Network)
    requires Wired(net) && t in net.transformers
    modifies net.virts`value, net.hws`level
    ensures old(t.inPin1.value != Unset || t.inPin2.value != Unset) ==> Settled(t)
    ensures forall u :: u in net.transformers && u != t && old(Settled(u)) ==> Settled(u)
    ensures forall v :: v in net.virts && Above(net, v, net.rank[t]) ==> v.value == old(v.value)
    ensures forall h :: h in net.hws && AboveHw(net, h, net.rank[t]) ==> h.level == old(h.level)
    decreases net.height - net.rank[t], 0, 0, 1
  {
    var p1, p2 := t.inPin1.value, t.inPin2.value;
    match t.kind
    case Unary =>
      if p1 != Unset { Drive(t, Truth(p1), net); }
    case Not =>
      if p1 != Unset { Drive(t, !Truth(p1), net); }
    case _ =>
      var newValue := Unset;
      if p1 == Unset {
        newValue := p2;
      } else if p2 == Unset {
        newValue := p1;
      }
      if newValue == Unset {
        newValue := match t.kind
          case And => Level(Truth(p1) && Truth(p2))
          case Or => Level(Truth(p1) || Truth(p2))
          case _ => Level(p1 != p2);
      }
      Drive(t, Truth(newValue), net);
  }

  // ---- Whole networks ------------------------------------------------------------------------

  ghost predicate AllSettled(net: Network)
    requires Wired(net)
    reads net.virts, net.hws
  {
    forall t :: t in net.transformers ==> Settled(t)
  }

  // A pin the caller may set: no transformer drives it.
  ghost predicate Source(net: Network, v: GpioVirtPin) {
    v in net.virts && forall t :: t in net.transformers ==> v !in Virts(t.outPin)
  }

  // Plain Boolean evaluation: a source shows its own value, a driven pin the meaning of its
  // driver's inputs, evaluated in turn. No propagation order is involved.
  ghost function Evaluate(net: Network, v: GpioVirtPin, fuel: nat): PinState
    requires Wired(net) && v in net.virts && Above(net, v, fuel)
    reads net.virts
    decreases fuel
  {
    if t :| t in net.transformers && v in Virts(t.outPin) then
      InputsAbove(net, t);
      Meaning(t.kind, Evaluate(net, t.inPin1, net.rank[t]), Evaluate(net, t.inPin2, net.rank[t]))
    else v.value
  }

  lemma InputsAbove(net: Network, t: GpioTransformer)
    requires Wired(net) && t in net.transformers
    ensures Above(net, t.inPin1, net.rank[t]) && Above(net, t.inPin2, net.rank[t])
  {
  }

  // A driven pin evaluates to the meaning of its driver, which is the only one.
  lemma DrivenEvaluates(net: Network, t: GpioTransformer, v: GpioVirtPin, fuel: nat)
    requires Wired(net) && Above(net, v, fuel) && t in net.transformers && v in Virts(t.outPin) && v in net.virts
    ensures Above(net, t.inPin1, net.rank[t]) && Above(net, t.inPin2, net.rank[t])
    ensures Evaluate(net, v, fuel)
         == Meaning(t.kind, Evaluate(net, t.inPin1, net.rank[t]), Evaluate(net, t.inPin2, net.rank[t]))
  {
    InputsAbove(net, t);
    forall u | u in net.transformers && u != t
      ensures v !in Virts(u.outPin)
    {
      assert Apart(u.outPin, t.outPin);
    }
  }

  // Settled means evaluated: each virtual pin shows what the Boolean circuit computes from
  // the sources alone, whatever calls led there.
  lemma {:induction false} SettledIsEvaluated(net: Network, v: GpioVirtPin, fuel: nat)
    requires Wired(net) && AllSettled(net) && v in net.virts && Above(net, v, fuel)
    ensures v.value == Evaluate(net, v, fuel)
    decreases fuel
  {
    if t :| t in net.transformers && v in Virts(t.outPin) {
      DrivenEvaluates(net, t, v, fuel);
      SettledIsEvaluated(net, t.inPin1, net.rank[t]);
      SettledIsEvaluated(net, t.inPin2, net.rank[t]);
    }
  }

  // The same for the hardware pins a transformer reaches.
  lemma HardwareIsEvaluated(net: Network, t: GpioTransformer, h: GpioHwPin)
    requires Wired(net) && AllSettled(net) && t in net.transformers && h in Hws(t.outPin)
    ensures Above(net, t.inPin1, net.rank[t]) && Above(net, t.inPin2, net.rank[t])
    ensures h.level == Meaning(t.kind, Evaluate(net, t.inPin1, net.rank[t]), Evaluate(net, t.inPin2, net.rank[t]))
  {
    InputsAbove(net, t);
    SettledIsEvaluated(net, t.inPin1, net.rank[t]);
    SettledIsEvaluated(net, t.inPin2, net.rank[t]);
  }

  // A network nothing has been set in yet drives nothing, and that is settled.
  lemma FreshIsSettled(net: Network)
    requires Wired(net)
    requires (forall v :: v in net.virts ==> v.value == Unset) && (forall h :: h in net.hws ==> h.level == Unset)
    ensures AllSettled(net)
  {
  }

  lemma EveryPinIsEvaluated(net: Network)
    requires Wired(net) && AllSettled(net)
    ensures forall v :: v in net.virts ==> Above(net, v, net.height) && v.value == Evaluate(net, v, net.height)
  {
    forall v | v in net.virts
      ensures Above(net, v, net.height) && v.value == Evaluate(net, v, net.height)
    {
      SettledIsEvaluated(net, v, net.height);
    }
  }

  // ---- What a network computes -----------------------------------------------------------------

  predicate Joins(kind: Kind) {
    kind == And || kind == Or || kind == Xor
  }

  function Count(states: seq<PinState>, p: PinState): nat {
    if states == [] then 0 else Count(states[..|states| - 1], p) + if states[|states| - 1] == p then 1 else 0
  }

  // Many pins as one: nothing while none is set, and else all of those set, any of them, or an odd
  // number of them.
  function Combined(kind: Kind, states: seq<PinState>): PinState
    requires Joins(kind)
  {
    OfCounts(kind, Count(states, On), Count(states, Off))
  }

  function OfCounts(kind: Kind, on: nat, off: nat): PinState
    requires Joins(kind)
  {
    if on == 0 && off == 0 then Unset
    else if kind == And then (if off == 0 then On else Off)
    else if kind == Or then (if on > 0 then On else Off)
    else if on % 2 == 1 then On else Off
  }

  function Flipped(p: PinState): PinState {
    match p
    case On => Off
    case Off => On
    case Unset => Unset
  }

  function States(pins: seq<GpioVirtPin>): (states: seq<PinState>)
    reads pins
    ensures |states| == |pins| && forall i :: 0 <= i < |pins| ==> states[i] == pins[i].value
  {
    if pins == [] then [] else States(pins[..|pins| - 1]) + [pins[|pins| - 1].value]
  }

  // Where the transformers of one kind above v end, followed through the plain ones: at pins that are
  // sources or that other kinds drive.
  ghost function Ends(net: Network, v: GpioVirtPin, fuel: nat, kind: Kind): (ends: seq<GpioVirtPin>)
    requires Wired(net) && v in net.virts && Above(net, v, fuel)
    reads net.virts`dependentPin
    ensures forall e :: e in ends ==> e in net.virts
    decreases fuel, 0
  {
    if t :| t in net.transformers && v in Virts(t.outPin) && (t.kind == kind || t.kind == Unary) then
      EndsInto(net, t, kind)
    else [v]
  }

  ghost function EndsInto(net: Network, t: GpioTransformer, kind: Kind): (ends: seq<GpioVirtPin>)
    requires Wired(net) && t in net.transformers
    reads net.virts`dependentPin
    ensures forall e :: e in ends ==> e in net.virts
    decreases net.rank[t], 1
  {
    InputsAbove(net, t);
    if t.kind == Unary || t.kind == Not then Ends(net, t.inPin1, net.rank[t], kind)
    else Ends(net, t.inPin1, net.rank[t], kind) + Ends(net, t.inPin2, net.rank[t], kind)
  }

  lemma {:induction false} EndsAreThere(net: Network, v: GpioVirtPin, fuel: nat, kind: Kind)
    requires Wired(net) && v in net.virts && Above(net, v, fuel)
    ensures forall e :: e in Ends(net, v, fuel, kind) ==> EndsHere(net, e, kind)
    decreases fuel
  {
    if t :| t in net.transformers && v in Virts(t.outPin) && (t.kind == kind || t.kind == Unary) {
      EndsThroughDriver(net, t, v, fuel, kind);
      EndsAreThere(net, t.inPin1, net.rank[t], kind);
      EndsAreThere(net, t.inPin2, net.rank[t], kind);
    }
  }

  ghost predicate EndsHere(net: Network, v: GpioVirtPin, kind: Kind) {
    v in net.virts && forall t :: t in net.transformers && v in Virts(t.outPin) ==> t.kind != kind && t.kind != Unary
  }

  lemma OnlyDriver(net: Network, t: GpioTransformer, v: GpioVirtPin)
    requires Wired(net) && t in net.transformers && v in Virts(t.outPin)
    ensures forall u :: u in net.transformers && v in Virts(u.outPin) ==> u == t
  {
    forall u | u in net.transformers && u != t
      ensures v !in Virts(u.outPin)
    {
      assert Apart(u.outPin, t.outPin);
    }
  }

  lemma EndsThroughDriver(net: Network, t: GpioTransformer, v: GpioVirtPin, fuel: nat, kind: Kind)
    requires Wired(net) && v in net.virts && Above(net, v, fuel)
    requires t in net.transformers && v in Virts(t.outPin) && (t.kind == kind || t.kind == Unary)
    ensures Ends(net, v, fuel, kind) == EndsInto(net, t, kind)
    ensures Above(net, t.inPin1, net.rank[t]) && Above(net, t.inPin2, net.rank[t])
  {
    OnlyDriver(net, t, v);
    InputsAbove(net, t);
  }

  lemma {:induction false} CountAdds(a: seq<PinState>, b: seq<PinState>, p: PinState)
    ensures Count(a + b, p) == Count(a, p) + Count(b, p)
  {
    if b == [] {
      assert a + b == a;
    } else {
      CountAdds(a, b[..|b| - 1], p);
      assert (a + b)[..|a + b| - 1] == a + b[..|b| - 1];
    }
  }

  lemma CountsJoin(kind: Kind, on1: nat, off1: nat, on2: nat, off2: nat)
    requires Joins(kind)
    ensures OfCounts(kind, on1 + on2, off1 + off2) ==
            Meaning(kind, OfCounts(kind, on1, off1), OfCounts(kind, on2, off2))
  {
    assert kind == Xor ==> (on1 + on2) % 2 == (on1 % 2 + on2 % 2) % 2;
  }

  // Two groups joined as two pins are one group.
  lemma GroupsJoin(kind: Kind, a: seq<PinState>, b: seq<PinState>)
    requires Joins(kind)
    ensures Combined(kind, a + b) == Meaning(kind, Combined(kind, a), Combined(kind, b))
  {
    CountAdds(a, b, On);
    CountAdds(a, b, Off);
    CountsJoin(kind, Count(a, On), Count(a, Off), Count(b, On), Count(b, Off));
  }

  lemma AloneIsItself(kind: Kind, p: PinState)
    requires Joins(kind)
    ensures Combined(kind, [p]) == p
  {
    assert [p][..0] == [];
    assert Count([p], On) == Count([], On) + if p == On then 1 else 0;
    assert Count([p], Off) == Count([], Off) + if p == Off then 1 else 0;
  }

  lemma StatesOfGroups(a: seq<GpioVirtPin>, b: seq<GpioVirtPin>)
    ensures States(a + b) == States(a) + States(b)
  {
  }

  // In a settled network each pin is the conjunction, the disjunction or the parity of the pins at
  // the ends of the transformers of that kind above it.
  lemma {:induction false} PinCombinesEnds(net: Network, v: GpioVirtPin, fuel: nat, kind: Kind)
    requires Wired(net) && AllSettled(net) && v in net.virts && Above(net, v, fuel) && Joins(kind)
    ensures v.value == Combined(kind, States(Ends(net, v, fuel, kind)))
    decreases fuel, 0
  {
    if t :| t in net.transformers && v in Virts(t.outPin) && (t.kind == kind || t.kind == Unary) {
      EndsThroughDriver(net, t, v, fuel, kind);
      InputsCombineEnds(net, t, kind);
    } else {
      AloneIsItself(kind, v.value);
      assert States([v]) == [v.value];
    }
  }

  lemma {:induction false} InputsCombineEnds(net: Network, t: GpioTransformer, kind: Kind)
    requires Wired(net) && AllSettled(net) && t in net.transformers && (t.kind == kind || t.kind == Unary)
    requires Joins(kind)
    ensures Meaning(t.kind, t.inPin1.value, t.inPin2.value) == Combined(kind, States(EndsInto(net, t, kind)))
    decreases net.rank[t], 1
  {
    InputsAbove(net, t);
    PinCombinesEnds(net, t.inPin1, net.rank[t], kind);
    if t.kind == kind {
      PinCombinesEnds(net, t.inPin2, net.rank[t], kind);
      var a, b := Ends(net, t.inPin1, net.rank[t], kind), Ends(net, t.inPin2, net.rank[t], kind);
      StatesOfGroups(a, b);
      GroupsJoin(kind, States(a), States(b));
    }
  }

  // What a transformer drives, in terms of pins further up.
  ghost predicate Drives(net: Network, t: GpioTransformer, p: PinState)
    requires Wired(net) && t in net.transformers
    reads net.virts
  {
    match t.kind
    case Unary => p == t.inPin1.value
    case Not => p == Flipped(t.inPin1.value)
    case _ => p == Combined(t.kind, States(EndsInto(net, t, t.kind)))
  }

  // Every pin that a transformer reaches shows what that transformer drives.
  ghost predicate Computes(net: Network)
    requires Wired(net)
    reads net.virts, net.hws
  {
    && (forall t, v :: t in net.transformers && v in Virts(t.outPin) ==> Drives(net, t, v.value))
    && (forall t, h :: t in net.transformers && h in Hws(t.outPin) ==> Drives(net, t, h.level))
  }

  lemma SettledComputes(net: Network)
    requires Wired(net) && AllSettled(net)
    ensures Computes(net)
  {
    forall t | t in net.transformers
      ensures Drives(net, t, Meaning(t.kind, t.inPin1.value, t.inPin2.value))
    {
      if Joins(t.kind) {
        InputsCombineEnds(net, t, t.kind);
      }
    }
    forall t | t in net.transformers
      ensures Shows(t.outPin, Meaning(t.kind, t.inPin1.value, t.inPin2.value))
    {
      assert Settled(t);
    }
  }

  // Any run of set calls on sources leaves every pin showing its evaluation.
  method SetSources(calls: seq<(GpioVirtPin, bool)>, ghost net: Network)
    requires Wired(net) && AllSettled(net)
    requires forall c :: c in calls ==> Source(net, c.0)
    modifies net.virts`value, net.hws`level
    ensures Wired(net) && AllSettled(net)
    ensures Computes(net)
    ensures forall v :: v in net.virts ==> Above(net, v, net.height) && v.value == Evaluate(net, v, net.height)
    ensures forall v :: Source(net, v) ==> v.value == LastSet(calls, v, old(v.value))
  {
    for i := 0 to |calls|
      invariant Wired(net) && AllSettled(net)
      invariant forall v :: Source(net, v) ==> v.value == LastSet(calls[..i], v, old(v.value))
    {
      assert calls[..i + 1][..i] == calls[..i];
      SetVirt(calls[i].0, calls[i].1, net, 0);
    }
    assert calls[..|calls|] == calls;
    EveryPinIsEvaluated(net);
    SettledComputes(net);
  }

  function LastSet(calls: seq<(GpioVirtPin, bool)>, v: GpioVirtPin, before: PinState): PinState {
    if calls == [] then before
    else if calls[|calls| - 1].0 == v then (if calls[|calls| - 1].1 then On else Off)
    else LastSet(calls[..|calls| - 1], v, before)
  }

  // ---- Building networks -----------------------------------------------------------------------

  // Pins alone, before any transformer is constructed.
  lemma PinsAreWired(virts: set<GpioVirtPin>, hws: set<GpioHwPin>)
    requires forall v :: v in virts ==> v.dependentPin == null
    ensures Wired(Network(virts, hws, {}, map[], 0))
  {
  }

  // What reads v is among these transformers, if anything does.
  ghost predicate ReaderIn(v: GpioVirtPin, down: set<GpioTransformer>)
    reads v`dependentPin
  {
    v.dependentPin != null ==> v.dependentPin in down
  }

  // These transformers are downstream of outPin, or at least none that is has been left out: they
  // hold its readers, and the readers of what they drive.
  ghost predicate Downstream(net: Network, outPin: GpioPin, down: set<GpioTransformer>)
    reads net.virts`dependentPin
  {
    && down <= net.transformers && Virts(outPin) <= net.virts
    && (forall v :: v in Virts(outPin) ==> ReaderIn(v, down))
    && (forall u :: u in down ==> Virts(u.outPin) <= net.virts)
    && (forall u, v :: u in down && v in Virts(u.outPin) ==> ReaderIn(v, down))
  }

  // The output has no other driver, and nothing downstream of it drives an input: no cycle.
  ghost predicate Free(net: Network, outPin: GpioPin, down: set<GpioTransformer>,
                       inPin1: GpioVirtPin, inPin2: GpioVirtPin)
    reads net.virts`dependentPin
  {
    && Downstream(net, outPin, down) && Hws(outPin) <= net.hws
    && (forall u :: u in net.transformers ==> Apart(u.outPin, outPin))
    && inPin1 !in Virts(outPin) && inPin2 !in Virts(outPin)
    && (forall u :: u in down ==> inPin1 !in Virts(u.outPin) && inPin2 !in Virts(u.outPin))
  }

  // The new transformer comes after all that were there, except what is downstream of it.
  ghost function Raised(net: Network, down: set<GpioTransformer>): map<GpioTransformer, nat> {
    map u | u in net.rank :: if u in down then net.rank[u] + net.height + 1 else net.rank[u]
  }

  ghost function With(net: Network, t: GpioTransformer, down: set<GpioTransformer>): Network {
    net.(transformers := net.transformers + {t}, rank := Raised(net, down)[t := net.height],
         height := 2 * net.height + 1)
  }

  ghost predicate Connected(t: GpioTransformer, net: Network)
    reads net.virts`dependentPin
  {
    && t.inPin1 in net.virts && t.inPin2 in net.virts
    && t.inPin1.dependentPin == t && t.inPin2.dependentPin == t
    && ((t.kind == Unary || t.kind == Not) ==> t.inPin1 == t.inPin2)
    && Virts(t.outPin) <= net.virts && Hws(t.outPin) <= net.hws
    && (forall u :: u in net.transformers ==> Apart(u.outPin, t.outPin))
  }

  // A transformer that was there, with its rank raised or not.
  lemma StaysWiredAt(net: Network, t: GpioTransformer, down: set<GpioTransformer>, u: GpioTransformer)
    requires net.rank.Keys == net.transformers && t !in net.transformers && u in net.transformers
    requires Connected(t, net) && WiredAt(net, u)
    requires forall w :: w in net.transformers ==> net.rank[w] < net.height
    requires u in down ==> t.inPin1 !in Virts(u.outPin) && t.inPin2 !in Virts(u.outPin)
    requires forall v :: v in Virts(u.outPin) ==> ReadBy(net, v) || v == t.inPin1 || v == t.inPin2
    requires u in down ==> forall v :: v in Virts(u.outPin) ==> ReaderIn(v, down)
    ensures WiredAt(With(net, t, down), u)
  {
    var after := With(net, t, down);
    forall v | v in Virts(u.outPin) && v.dependentPin != null && v.dependentPin in after.rank
      ensures after.rank[u] < after.rank[v.dependentPin]
    {
      assert u in down ==> ReaderIn(v, down);
    }
  }

  lemma NewIsWiredAt(net: Network, t: GpioTransformer, down: set<GpioTransformer>)
    requires net.rank.Keys == net.transformers && t !in net.transformers && Connected(t, net)
    requires t.inPin1 !in Virts(t.outPin) && t.inPin2 !in Virts(t.outPin)
    requires forall v :: v in Virts(t.outPin) ==> ReaderIn(v, down)
    requires down <= net.transformers
    ensures WiredAt(With(net, t, down), t)
  {
    var after := With(net, t, down);
    forall v | v in Virts(t.outPin) && v.dependentPin != null && v.dependentPin in after.rank
      ensures after.rank[t] < after.rank[v.dependentPin]
    {
      assert ReaderIn(v, down);
    }
  }

  lemma WithIsWired(net: Network, t: GpioTransformer, down: set<GpioTransformer>)
    requires net.rank.Keys == net.transformers && t !in net.transformers
    requires Connected(t, net) && down <= net.transformers
    requires forall u :: u in net.transformers ==> WiredAt(net, u)
    requires forall v :: v in net.virts ==> ReadBy(net, v) || v == t.inPin1 || v == t.inPin2
    requires forall u, w :: u in net.transformers && w in net.transformers && u != w ==> Apart(u.outPin, w.outPin)
    requires t.inPin1 !in Virts(t.outPin) && t.inPin2 !in Virts(t.outPin)
    requires forall v :: v in Virts(t.outPin) ==> ReaderIn(v, down)
    requires forall u :: u in down ==> t.inPin1 !in Virts(u.outPin) && t.inPin2 !in Virts(u.outPin)
    requires forall u, v :: u in down && v in Virts(u.outPin) ==> ReaderIn(v, down)
    ensures Wired(With(net, t, down))
  {
    var after := With(net, t, down);
    NewIsWiredAt(net, t, down);
    forall u | u in net.transformers
      ensures WiredAt(after, u)
    {
      assert WiredAt(net, u);
      StaysWiredAt(net, t, down, u);
    }
    NoneShared(net, t, after);
  }

  lemma NoneShared(net: Network, t: GpioTransformer, after: Network)
    requires Connected(t, net) && after.transformers == net.transformers + {t} && after.virts == net.virts
    requires forall v :: v in net.virts ==> ReadBy(net, v) || v == t.inPin1 || v == t.inPin2
    requires forall u, w :: u in net.transformers && w in net.transformers && u != w ==> Apart(u.outPin, w.outPin)
    ensures forall v :: v in after.virts ==> ReadBy(after, v)
    ensures forall u, w :: u in after.transformers && w in after.transformers && u != w ==> Apart(u.outPin, w.outPin)
  {
  }

  // Nothing else is refused: whichever transformer of a wired network is taken for the last one, the
  // others with higher rank are such a set.
  lemma AnyCouldBeLast(net: Network, t: GpioTransformer)
    requires Wired(net) && t in net.transformers
    ensures var rest := net.(transformers := net.transformers - {t});
            var down := set u | u in rest.transformers && net.rank[u] > net.rank[t];
            Free(rest, t.outPin, down, t.inPin1, t.inPin2)
  {
    var down := set u | u in net.transformers && u != t && net.rank[u] > net.rank[t];
    assert down == set u | u in net.transformers - {t} && net.rank[u] > net.rank[t];
    assert WiredAt(net, t);
    forall u | u in net.transformers && u != t
      ensures Apart(u.outPin, t.outPin) && Virts(u.outPin) <= net.virts
    {
      assert WiredAt(net, u);
    }
    forall u, v | (u in down || u == t) && v in Virts(u.outPin)
      ensures ReaderIn(v, down) && v != t.inPin1 && v != t.inPin2
    {
      assert WiredAt(net, u) && ReadBy(net, v);
    }
  }

  // Constructing a transformer on unread inputs and an undriven output keeps the network wired, in
  // whatever order its transformers are made: down is any set that holds all there is downstream of
  // the output, and the only thing forbidden is a cycle.
  method Construct(kind: Kind, inPin1: GpioVirtPin, inPin2: GpioVirtPin, outPin: GpioPin, ghost net: Network,
                   ghost down: set<GpioTransformer>)
    returns (t: GpioTransformer)
    requires Wired(net) && inPin1 in net.virts && inPin2 in net.virts
    requires inPin1.dependentPin == null && inPin2.dependentPin == null
    requires inPin1 == inPin2 <==> kind == Unary || kind == Not
    requires Free(net, outPin, down, inPin1, inPin2)
    modifies inPin1`dependentPin, inPin2`dependentPin
    ensures fresh(t) && t.kind == kind && t.inPin1 == inPin1 && t.inPin2 == inPin2 && t.outPin == outPin
    ensures Wired(With(net, t, down))
  {
    if kind == Unary || kind == Not {
      t := new GpioTransformer.OneInput(kind, inPin1, outPin);
    } else {
      t := new GpioTransformer.TwoInputs(kind, inPin1, inPin2, outPin);
    }
    WithIsWired(net, t, down);
  }
}
