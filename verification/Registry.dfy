/** The registry of task handlers: a map that only grows. */
module Registry {
  import opened Results

  type HandlerId = nat

  class Registry {
    var handlers: map<string, HandlerId>

    constructor ()
      ensures handlers == map[]
    {
      handlers := map[];
    }

    /** Refuses a second handler for a type, and never forgets one. */
    method Register(taskType: string, handler: HandlerId) returns (ok: bool)
      modifies this
      ensures ok <==> taskType !in old(handlers)
      ensures handlers == if ok then old(handlers)[taskType := handler] else old(handlers)
      ensures forall t :: t in old(handlers) ==> t in handlers && handlers[t] == old(handlers)[t]
    {
      ok := taskType !in handlers;
      if ok {
        handlers := handlers[taskType := handler];
      }
    }

    method Get(taskType: string) returns (handler: Option<HandlerId>)
      ensures handler.Some? <==> taskType in handlers
      ensures handler.Some? ==> handler.value == handlers[taskType]
    {
      handler := if taskType in handlers then Some(handlers[taskType]) else None;
    }

    /** Every registered type exactly once, in whatever order the map is walked. */
    method Types() returns (types: seq<string>)
      ensures forall t :: t in types <==> t in handlers
      ensures forall i, j :: 0 <= i < j < |types| ==> types[i] != types[j]
      ensures |types| == |handlers|
    {
      types := [];
      var todo := handlers.Keys;
      while todo != {}
        invariant todo <= handlers.Keys
        invariant forall t :: t in types <==> t in handlers && t !in todo
        invariant forall i, j :: 0 <= i < j < |types| ==> types[i] != types[j]
        invariant |types| + |todo| == |handlers|
        decreases |todo|
      {
        var t :| t in todo;
        types := types + [t];
        todo := todo - {t};
      }
    }
  }
}
