/** Unblocking scripts in document order, for one call while which no matching nodes appear. */
module ScriptUnblock {
  datatype Script = Inline(id: string) | External(id: string)

  /** `blocked`: matching nodes left, in document order; `counter`: what the status table holds;
      `pending`: external scripts inserted and not loaded; `activated`: scripts put in place of their
      node, in order; `ran`: scripts that have run, in order. */
  datatype State = State(blocked: seq<Script>, counter: int, pending: seq<Script>, activated: seq<Script>,
      ran: seq<Script>)

  /** `unblockScript`: replaces the first blocked node, and goes on at once unless it is external. */
  function Unblock(s: State): State
    decreases |s.blocked|
  {
    if s.blocked == [] then s
    else
      var n := s.blocked[0];
      var t := s.(blocked := s.blocked[1..], activated := s.activated + [n]);
      if n.External? then t.(pending := s.pending + [n])
      else Unblock(t.(ran := s.ran + [n], counter := s.counter - 1))
  }

  /** The load event of the external script that was inserted first. */
  function Loaded(s: State): State
    requires s.pending != []
  {
    Unblock(s.(pending := s.pending[1..], ran := s.ran + [s.pending[0]], counter := s.counter - 1))
  }

  function Begin(scripts: seq<Script>): State {
    var s := State(scripts, |scripts|, [], [], []);
    if scripts == [] then s else Unblock(s)
  }

  class Unblocker {
    var blocked: seq<Script>
    var counter: int
    var pending: seq<Script>
    var activated: seq<Script>
    var ran: seq<Script>

    constructor (scripts: seq<Script>)
      ensures Value() == State(scripts, 0, [], [], [])
    {
      blocked, counter, pending, activated, ran := scripts, 0, [], [], [];
    }

    function Value(): State
      reads this
    {
      State(blocked, counter, pending, activated, ran)
    }

    /** `unblockScriptBlockerId` and `unblockScriptBlockerHandle` */
    method Start()
      requires pending == [] && activated == [] && ran == [] && counter == 0
      modifies this
      ensures Value() == Begin(old(blocked))
    {
      if blocked != [] {
        counter := |blocked|;
        UnblockScript();
      }
    }

    method UnblockScript()
      modifies this
      ensures Value() == Unblock(old(Value()))
      decreases |blocked|
    {
      if blocked == [] {
        return;
      }
      var n := blocked[0];
      blocked, activated := blocked[1..], activated + [n];
      if n.External? {
        pending := pending + [n];
      } else {
        ran := ran + [n];
        counter := counter - 1;
        UnblockScript();
      }
    }

    /** The `onload` callback. */
    method OnLoad()
      requires pending != []
      modifies this
      ensures Value() == Loaded(old(Value()))
    {
      ran := ran + [pending[0]];
      pending := pending[1..];
      counter := counter - 1;
      UnblockScript();
    }
  }

  // ---------------------------------------------------------------- one call, any number of loads

  function Externals(scripts: seq<Script>): nat {
    if scripts == [] then 0 else (if scripts[0].External? then 1 else 0) + Externals(scripts[1..])
  }

  lemma {:induction false} ExternalsAppend(a: seq<Script>, b: seq<Script>)
    ensures Externals(a + b) == Externals(a) + Externals(b)
  {
    if a == [] {
      assert a + b == b;
    } else {
      assert (a + b)[1..] == a[1..] + b;
      ExternalsAppend(a[1..], b);
    }
  }

  /** What holds whenever no callback is running. */
  ghost predicate Inv(s: State, scripts: seq<Script>) {
    && s.activated + s.blocked == scripts
    && s.activated == s.ran + s.pending
    && |s.pending| <= 1
    && (forall i :: 0 <= i < |s.pending| ==> s.pending[i].External?)
    && s.counter == |s.blocked| + |s.pending|
  }

  /** One chain step keeps the invariant, and it only stops at an external script or at the end. */
  lemma {:induction false} UnblockKeeps(s: State, scripts: seq<Script>)
    requires Inv(s, scripts) && s.pending == []
    ensures Inv(Unblock(s), scripts)
    ensures Unblock(s).pending == [] ==> Unblock(s).blocked == []
    ensures Externals(Unblock(s).ran) == Externals(s.ran)
    decreases |s.blocked|
  {
    if s.blocked != [] {
      var n := s.blocked[0];
      var t := s.(blocked := s.blocked[1..], activated := s.activated + [n]);
      assert t.activated + t.blocked == scripts;
      assert s.ran + [] == s.ran;
      if !n.External? {
        var u := t.(ran := s.ran + [n], counter := s.counter - 1);
        assert u.ran + [] == u.ran;
        ExternalsAppend(s.ran, [n]);
        UnblockKeeps(u, scripts);
      }
    }
  }

  /** The state after the call and `loads` load events. */
  function After(scripts: seq<Script>, loads: nat): State {
    if loads == 0 then Begin(scripts)
    else
      var s := After(scripts, loads - 1);
      if s.pending == [] then s else Loaded(s)
  }

  lemma {:induction false} AfterKeeps(scripts: seq<Script>, loads: nat)
    requires loads <= Externals(scripts)
    ensures
      var s := After(scripts, loads);
      && Inv(s, scripts)
      && (s.pending == [] ==> s.blocked == [])
      && Externals(s.ran) == loads
      && (s.pending != [] <==> loads < Externals(scripts))
  {
    var s := After(scripts, loads);
    if loads == 0 {
      var first := State(scripts, |scripts|, [], [], []);
      assert [] + scripts == scripts && Inv(first, scripts);
      UnblockKeeps(first, scripts);
    } else {
      AfterKeeps(scripts, loads - 1);
      var before := After(scripts, loads - 1);
      var n := before.pending[0];
      var t := before.(pending := before.pending[1..], ran := before.ran + [n], counter := before.counter - 1);
      assert before.pending == [n] && t.ran + [] == t.ran;
      ExternalsAppend(before.ran, [n]);
      UnblockKeeps(t, scripts);
    }
    ExternalsAppend(s.activated, s.blocked);
    ExternalsAppend(s.ran, s.pending);
  }

  /** At every callback point: scripts are activated in document order, at most one external load is
      outstanding, the counter is the blocked nodes left plus that load, and it is 0 exactly when
      every script has run in document order, which takes as many loads as there are external
      scripts and no fewer. */
  lemma UnblocksInOrder(scripts: seq<Script>, loads: nat)
    requires loads <= Externals(scripts)
    ensures
      var s := After(scripts, loads);
      && s.activated <= scripts
      && s.ran <= s.activated
      && |s.pending| <= 1
      && s.counter == |s.blocked| + |s.pending|
      && (s.counter == 0 <==> s.ran == scripts)
      && (s.counter == 0 <==> loads == Externals(scripts))
  {
    var s := After(scripts, loads);
    AfterKeeps(scripts, loads);
    assert |scripts| == |s.activated| + |s.blocked| && |s.activated| == |s.ran| + |s.pending|;
    if s.counter == 0 {
      assert s.ran == s.activated == scripts;
    }
  }

  /** A load that never fires leaves the chain where it is: later scripts stay blocked and the counter
      above 0, in particular everything behind the first external script of the list. */
  lemma MissingLoadBlocks(a: seq<Script>, x: Script, b: seq<Script>)
    requires Externals(a) == 0 && x.External?
    ensures Begin(a + [x] + b) == State(b, |b| + 1, [x], a + [x], a)
  {
    var scripts := a + [x] + b;
    StopsAt(State(scripts, |scripts|, [], [], []), a, x, b);
  }

  lemma {:induction false} StopsAt(s: State, a: seq<Script>, x: Script, b: seq<Script>)
    requires s.blocked == a + [x] + b && Externals(a) == 0 && x.External?
    ensures Unblock(s) == State(b, s.counter - |a|, s.pending + [x], s.activated + (a + [x]), s.ran + a)
    decreases |a|
  {
    if a == [] {
      assert s.blocked == [x] + b;
      assert a + [x] == [x] && s.ran + a == s.ran;
    } else {
      var n := a[0];
      assert s.blocked[1..] == a[1..] + [x] + b;
      var t := s.(blocked := s.blocked[1..], activated := s.activated + [n], ran := s.ran + [n],
                  counter := s.counter - 1);
      StopsAt(t, a[1..], x, b);
      assert [n] + a[1..] == a;
      assert s.activated + [n] + (a[1..] + [x]) == s.activated + (a + [x]);
      assert s.ran + [n] + a[1..] == s.ran + a;
    }
  }
}
