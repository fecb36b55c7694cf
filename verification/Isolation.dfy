/** Isolation options: how connection hooks wrap one another, and which level a session or a transaction ends up with. */
module Isolation {
  import opened Results
  import opened Basics

  datatype Level = ReadCommitted | RepeatableRead | Serializable

  /** An option of `New`. */
  datatype Opt = SimpleProtocol | Isolate(level: Level)

  /** A connection hook: none, or one that sets the session level and then runs the hook it replaced. */
  datatype Hook = NoHook | SetThen(level: Level, next: Hook)

  /** The SET statements that a new connection executes, in order. */
  function Statements(h: Hook): seq<Level> {
    match h case NoHook => [] case SetThen(level, next) => [level] + Statements(next)
  }

  /** A session stays at the level set last, and at the server's own default if none was set. */
  function Session(h: Hook, server: Level): Level {
    var sets := Statements(h);
    if sets == [] then server else sets[|sets| - 1]
  }

  function Wrap(h: Hook, o: Opt): Hook {
    match o case SimpleProtocol => h case Isolate(level) => SetThen(level, h)
  }

  function WrapAll(h: Hook, os: seq<Opt>): Hook
    decreases |os|
  {
    if os == [] then h else WrapAll(Wrap(h, os[0]), os[1..])
  }

  /** The first isolation option of a list. */
  function FirstLevel(os: seq<Opt>): Option<Level> {
    if os == [] then None
    else if os[0].Isolate? then Some(os[0].level)
    else FirstLevel(os[1..])
  }

  /** The innermost hook speaks last: a list of options only matters to a session through its first isolation option. */
  lemma {:induction false} FirstOptionWins(h: Hook, os: seq<Opt>, server: Level)
    ensures Session(WrapAll(h, os), server) == Session(h, Or(FirstLevel(os), server))
    decreases |os|
  {
    if os != [] {
      FirstOptionWins(Wrap(h, os[0]), os[1..], server);
    }
  }

  lemma {:induction false} WrapMore(h: Hook, os: seq<Opt>, i: nat)
    requires i < |os|
    ensures WrapAll(h, os[..i + 1]) == Wrap(WrapAll(h, os[..i]), os[i])
    decreases |os|
  {
    if i > 0 {
      WrapMore(Wrap(h, os[0]), os[1..], i - 1);
      assert os[1..][..i] == os[..i + 1][1..] && os[1..][..i - 1] == os[..i][1..];
    } else {
      assert os[..1][1..] == [];
    }
  }

  /** The options that `New` applies: all of them, then serializable, then all of them again. */
  function Applied(os: seq<Opt>): Hook {
    WrapAll(WrapAll(NoHook, os), [Isolate(Serializable)] + os)
  }

  /** For every option list, a session runs at its first isolation option, or else serializable, whatever the server's default. */
  lemma SessionLevel(os: seq<Opt>, server: Level)
    ensures Session(Applied(os), server) == Or(FirstLevel(os), Serializable)
  {
    FirstOptionWins(WrapAll(NoHook, os), [Isolate(Serializable)] + os, server);
    FirstOptionWins(NoHook, os, Serializable);
  }

  /** Once a list names a level, nothing appended to it changes the level of a session. */
  lemma {:induction false} LaterOptionsAreIgnored(os: seq<Opt>, more: seq<Opt>, server: Level)
    requires FirstLevel(os).Some?
    ensures Session(Applied(os + more), server) == Session(Applied(os), server)
  {
    FirstOfPrefix(os, more);
    SessionLevel(os, server);
    SessionLevel(os + more, server);
  }

  lemma {:induction false} FirstOfPrefix(os: seq<Opt>, more: seq<Opt>)
    requires FirstLevel(os).Some?
    ensures FirstLevel(os + more) == FirstLevel(os)
  {
    assert os != [];
    if !os[0].Isolate? {
      assert (os + more)[1..] == os[1..] + more;
      FirstOfPrefix(os[1..], more);
    }
  }

  class PoolConfig {
    var afterConnect: Hook
    var simpleProtocol: bool

    constructor ()
      ensures afterConnect == NoHook && !simpleProtocol
    {
      afterConnect, simpleProtocol := NoHook, false;
    }

    /** `updatePoolConfig`. */
    method Update(o: Opt)
      modifies this
      ensures afterConnect == Wrap(old(afterConnect), o)
      ensures simpleProtocol == (old(simpleProtocol) || o.SimpleProtocol?)
    {
      match o {
        case SimpleProtocol => simpleProtocol := true;
        case Isolate(level) =>
          var oldAfterConnect := afterConnect;
          afterConnect := SetThen(level, oldAfterConnect);
      }
    }

    method UpdateAll(os: seq<Opt>)
      modifies this
      ensures afterConnect == WrapAll(old(afterConnect), os)
      ensures simpleProtocol == (old(simpleProtocol) || SimpleProtocol in os)
    {
      for i := 0 to |os|
        invariant afterConnect == WrapAll(old(afterConnect), os[..i])
        invariant simpleProtocol == (old(simpleProtocol) || SimpleProtocol in os[..i])
      {
        Update(os[i]);
        WrapMore(old(afterConnect), os, i);
      }
      assert os[..|os|] == os;
    }
  }

  /** `New`: the pool's configuration gives every session the first isolation option, or serializable. */
  method New(os: seq<Opt>) returns (cfg: PoolConfig)
    ensures fresh(cfg) && (cfg.simpleProtocol <==> SimpleProtocol in os)
    ensures forall server :: Session(cfg.afterConnect, server) == Or(FirstLevel(os), Serializable)
  {
    cfg := new PoolConfig();
    cfg.UpdateAll(os);
    var options := [Isolate(Serializable)] + os;
    cfg.UpdateAll(options);
    forall server ensures Session(cfg.afterConnect, server) == Or(FirstLevel(os), Serializable) {
      SessionLevel(os, server);
    }
  }

  /** `Begin`: the last option wins, and without options the session's level stands. */
  method Begin(session: Level, os: seq<Level>) returns (level: Level)
    ensures level == if os == [] then session else os[|os| - 1]
  {
    var isoLevel: Option<Level> := None;
    for i := 0 to |os|
      invariant isoLevel == if i == 0 then None else Some(os[i - 1])
    {
      isoLevel := Some(os[i]);
    }
    level := Or(isoLevel, session);
  }
}
