/** Register scripts: a fixed list of single-register writes issued one after
    another, each write's error ignored. The configuration routines and the
    CC-mode switch are such scripts. */
module Script {
  import opened Registers
  import opened Hardware
  import opened Cc1101
  import opened Spi

  /** One register write of a script: the address byte and the value. */
  type Write = (byte, byte)

  /** What a run of writes leaves behind: the events it added to the
      transcript, the exchange counter and the register store. */
  datatype Outcome = Outcome(events: seq<Event>, count: nat, regs: map<nat, byte>)

  /** The configuration register a write lands in, when it lands at all: the
      address byte must not carry the read flag and must name a configuration
      register. */
  function Target(w: Write): Option<nat>
  {
    if w.0 & 0x80 == 0 && ((w.0 & 0x3F) as nat) < CONFIG_SPACE then Some((w.0 & 0x3F) as nat) else None
  }

  /** One WriteSingleRegister call: its frame, the exchanges it uses and the
      store update, which happens only if both exchanges went through. */
  ghost function WriteOutcome(o: nat -> Answer, c: nat, regs: map<nat, byte>, w: Write): Outcome
  {
    Outcome(FrameEvents(o, c, [[w.0], [w.1]]),
            c + |Exchanges(o, c, [[w.0], [w.1]])|,
            if !o(c).Fault? && !o(c + 1).Fault? && w.0 & 0x80 == 0 then Store(regs, (w.0 & 0x3F) as nat, w.1) else regs)
  }

  /** The writes of script issued in order from exchange c on. */
  ghost function Run(o: nat -> Answer, c: nat, regs: map<nat, byte>, script: seq<Write>): Outcome
    decreases |script|
  {
    if script == [] then Outcome([], c, regs)
    else
      var w := WriteOutcome(o, c, regs, script[0]);
      var rest := Run(o, w.count, w.regs, script[1..]);
      Outcome(w.events + rest.events, rest.count, rest.regs)
  }

  /** The register store after every write of script has landed. */
  function Overlay(regs: map<nat, byte>, script: seq<Write>): map<nat, byte>
    decreases |script|
  {
    if script == [] then regs
    else Overlay(if Target(script[0]).Some? then regs[Target(script[0]).value := script[0].1] else regs, script[1..])
  }

  /** Issuing one more write of the script moves the remaining run one write on. */
  lemma RunStep(o: nat -> Answer, c: nat, regs: map<nat, byte>, script: seq<Write>, i: nat, t: seq<Event>, whole: seq<Event>,
                t2: seq<Event>, c2: nat, regs2: map<nat, byte>)
    requires i < |script|
    requires whole == t + Run(o, c, regs, script[i..]).events
    requires t2 == t + FrameEvents(o, c, [[script[i].0], [script[i].1]])
    requires c2 == c + |Exchanges(o, c, [[script[i].0], [script[i].1]])|
    requires regs2 == WriteOutcome(o, c, regs, script[i]).regs
    ensures whole == t2 + Run(o, c2, regs2, script[i + 1..]).events
    ensures Run(o, c, regs, script[i..]).count == Run(o, c2, regs2, script[i + 1..]).count
    ensures Run(o, c, regs, script[i..]).regs == Run(o, c2, regs2, script[i + 1..]).regs
  {
    assert script[i..][1..] == script[i + 1..];
    var rest := Run(o, c2, regs2, script[i + 1..]);
    assert Run(o, c, regs, script[i..]).events == FrameEvents(o, c, [[script[i].0], [script[i].1]]) + rest.events;
    Regroup(t, FrameEvents(o, c, [[script[i].0], [script[i].1]]), rest.events);
  }

  /** Issue every write of script in order, ignoring each write's error. */
  method WriteScript(d: Device, script: seq<Write>)
    modifies d.bus
    ensures var r := Run(d.bus.oracle, old(d.bus.count), old(d.bus.Regs()), script);
      && d.bus.trace == old(d.bus.trace) + r.events
      && d.bus.count == r.count
      && d.bus.Regs() == r.regs
  {
    ghost var o, t0 := d.bus.oracle, d.bus.trace;
    ghost var whole := Run(o, d.bus.count, d.bus.Regs(), script);
    assert script[0..] == script;
    for i := 0 to |script|
      invariant t0 + whole.events == d.bus.trace + Run(o, d.bus.count, d.bus.Regs(), script[i..]).events
      invariant whole.count == Run(o, d.bus.count, d.bus.Regs(), script[i..]).count
      invariant whole.regs == Run(o, d.bus.count, d.bus.Regs(), script[i..]).regs
    {
      ghost var t, c, regs := d.bus.trace, d.bus.count, d.bus.Regs();
      var _ := WriteSingleRegister(d, script[i].0, script[i].1);
      RunStep(o, c, regs, script, i, t, t0 + whole.events, d.bus.trace, d.bus.count, d.bus.Regs());
    }
    assert script[|script|..] == [];
    assert d.bus.trace + [] == d.bus.trace;
  }

  /** When every exchange of the run succeeds, each write lands: the run uses
      two exchanges per write and leaves the store overlaid with the script. */
  lemma {:induction false} RunDelivered(o: nat -> Answer, c: nat, regs: map<nat, byte>, script: seq<Write>)
    requires forall k :: c <= k < c + 2 * |script| ==> !o(k).Fault?
    ensures Run(o, c, regs, script).count == c + 2 * |script|
    ensures Run(o, c, regs, script).regs == Overlay(regs, script)
    decreases |script|
  {
    if script != [] {
      ExchangesTwo(o, c, [script[0].0], [script[0].1]);
      RunDelivered(o, c + 2, WriteOutcome(o, c, regs, script[0]).regs, script[1..]);
    }
  }

  /** Whatever the transport does, a register that no write of the script
      targets keeps its contents. */
  lemma {:induction false} RunKeeps(o: nat -> Answer, c: nat, regs: map<nat, byte>, script: seq<Write>, a: nat)
    requires forall i :: 0 <= i < |script| ==> Target(script[i]) != Some(a)
    ensures (a in Run(o, c, regs, script).regs) == (a in regs)
    ensures a in regs ==> Run(o, c, regs, script).regs[a] == regs[a]
    decreases |script|
  {
    if script != [] {
      var w := WriteOutcome(o, c, regs, script[0]);
      assert Target(script[0]) != Some(a);
      RunKeeps(o, w.count, w.regs, script[1..], a);
    }
  }

  /** After an overlay, a register holds the value of the last write that
      targets it. */
  lemma {:induction false} OverlayLast(regs: map<nat, byte>, script: seq<Write>, a: nat, i: nat)
    requires i < |script| && Target(script[i]) == Some(a)
    requires forall j :: i < j < |script| ==> Target(script[j]) != Some(a)
    ensures a in Overlay(regs, script) && Overlay(regs, script)[a] == script[i].1
    decreases |script|
  {
    var next := if Target(script[0]).Some? then regs[Target(script[0]).value := script[0].1] else regs;
    if i == 0 {
      OverlayKeeps(next, script[1..], a);
    } else {
      OverlayLast(next, script[1..], a, i - 1);
    }
  }

  /** A register that no write of the script targets keeps its contents
      through the overlay. */
  lemma {:induction false} OverlayKeeps(regs: map<nat, byte>, script: seq<Write>, a: nat)
    requires forall j :: 0 <= j < |script| ==> Target(script[j]) != Some(a)
    ensures (a in Overlay(regs, script)) == (a in regs)
    ensures a in regs ==> Overlay(regs, script)[a] == regs[a]
    decreases |script|
  {
    if script != [] {
      assert Target(script[0]) != Some(a);
      var next := if Target(script[0]).Some? then regs[Target(script[0]).value := script[0].1] else regs;
      OverlayKeeps(next, script[1..], a);
    }
  }

  /** pos gives, for each register the script writes, the index of that
      write: so every write lands and no two writes hit the same register. */
  ghost predicate Positioned(script: seq<Write>, pos: nat -> nat)
  {
    forall j :: 0 <= j < |script| ==> Target(script[j]).Some? && pos(Target(script[j]).value) == j
  }

  /** In a script that writes each register once, the overlay holds every
      write's value in its register. */
  lemma OverlayWritten(regs: map<nat, byte>, script: seq<Write>, pos: nat -> nat, i: nat)
    requires Positioned(script, pos) && i < |script|
    ensures Target(script[i]).Some?
    ensures var a := Target(script[i]).value;
      a in Overlay(regs, script) && Overlay(regs, script)[a] == script[i].1
  {
    var a := Target(script[i]).value;
    forall j | i < j < |script|
      ensures Target(script[j]) != Some(a)
    {
      assert pos(Target(script[j]).value) == j;
    }
    OverlayLast(regs, script, a, i);
  }

  /** A register whose position lies outside a positioned script is never
      written by it, whatever the transport does. */
  lemma PositionedKeeps(o: nat -> Answer, c: nat, regs: map<nat, byte>, script: seq<Write>, pos: nat -> nat, a: nat)
    requires Positioned(script, pos) && pos(a) >= |script|
    ensures (a in Run(o, c, regs, script).regs) == (a in regs)
    ensures a in regs ==> Run(o, c, regs, script).regs[a] == regs[a]
  {
    RunKeeps(o, c, regs, script, a);
  }
}
