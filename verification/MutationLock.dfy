/**
  The lock on changes to one workspace: a channel that holds one token. Whoever creates the channel
  puts the token in; an action takes it and gives it back. Others may find the channel before its
  token is there. The invariant counts the token wherever it is, and everything else follows from
  there being one.
 */
module MutationLock {
  type Id = nat

  /** One workspace: whether its channel exists, the tokens in it, and who is where. */
  datatype State = State(created: bool, tokens: nat, creating: set<Id>, waiting: set<Id>, acting: set<Id>)

  datatype Event =
    | LoadOrStore(id: Id)
    | PutFirst(id: Id)
    | Take(id: Id)
    | Cancel(id: Id)
    | PutBack(id: Id)

  const CAPACITY: nat := 1

  function Initial(): State {
    State(false, 0, {}, {}, {})
  }

  /** A channel send waits while the channel is full, a receive while it is empty. */
  predicate Enabled(s: State, e: Event) {
    match e
    case LoadOrStore(id) => id !in s.creating + s.waiting + s.acting
    case PutFirst(id) => id in s.creating && s.tokens < CAPACITY
    case Take(id) => id in s.waiting && s.tokens > 0
    case Cancel(id) => id in s.waiting
    case PutBack(id) => id in s.acting && s.tokens < CAPACITY
  }

  function Step(s: State, e: Event): State
    requires Enabled(s, e)
  {
    match e
    case LoadOrStore(id) =>
      if s.created then s.(waiting := s.waiting + {id}) else s.(created := true, creating := s.creating + {id})
    case PutFirst(id) => s.(tokens := s.tokens + 1, creating := s.creating - {id}, waiting := s.waiting + {id})
    case Take(id) => s.(tokens := s.tokens - 1, waiting := s.waiting - {id}, acting := s.acting + {id})
    case Cancel(id) => s.(waiting := s.waiting - {id})
    case PutBack(id) => s.(tokens := s.tokens + 1, acting := s.acting - {id})
  }

  ghost predicate IsRun(s: State, events: seq<Event>)
    decreases |events|
  {
    events == [] || (Enabled(s, events[0]) && IsRun(Step(s, events[0]), events[1..]))
  }

  function Reach(s: State, events: seq<Event>): State
    requires IsRun(s, events)
    decreases |events|
  {
    if events == [] then s else Reach(Step(s, events[0]), events[1..])
  }

  /** There is one token: in the channel, in the hands of its creator, or with the one action under way. */
  predicate OneToken(s: State) {
    && s.tokens + |s.creating| + |s.acting| == (if s.created then 1 else 0)
    && s.creating !! s.waiting && s.creating !! s.acting && s.waiting !! s.acting
  }

  lemma StepKeepsToken(s: State, e: Event)
    requires OneToken(s) && Enabled(s, e)
    ensures OneToken(Step(s, e))
  {
  }

  lemma {:induction false} RunKeepsToken(s: State, events: seq<Event>)
    requires OneToken(s) && IsRun(s, events)
    ensures OneToken(Reach(s, events))
    decreases |events|
  {
    if events != [] {
      StepKeepsToken(s, events[0]);
      RunKeepsToken(Step(s, events[0]), events[1..]);
    }
  }

  lemma AtMostOne<T>(s: set<T>, a: T, b: T)
    requires |s| <= 1 && a in s && b in s
    ensures a == b
  {
    assert |s - {a}| == 0;
    assert b !in s - {a};
  }

  /** In every interleaving at most one action runs, and whoever has a token can put it in at once. */
  lemma EveryRunExcludes(events: seq<Event>)
    requires IsRun(Initial(), events)
    ensures var s := Reach(Initial(), events);
      && (forall a, b :: a in s.acting && b in s.acting ==> a == b)
      && (forall id :: id in s.acting ==> Enabled(s, PutBack(id)))
      && (forall id :: id in s.creating ==> Enabled(s, PutFirst(id)))
  {
    RunKeepsToken(Initial(), events);
    var s := Reach(Initial(), events);
    forall a, b | a in s.acting && b in s.acting ensures a == b { AtMostOne(s.acting, a, b); }
  }

  /** A waiting action is never stuck: one can go, or another holds the token and can give it back. */
  lemma SomeoneCanMove(s: State, id: Id)
    requires OneToken(s) && s.created && id in s.waiting
    ensures Enabled(s, Take(id)) || exists other :: Enabled(s, PutBack(other)) || Enabled(s, PutFirst(other))
  {
    if s.tokens == 0 {
      if s.acting != {} {
        var other :| other in s.acting;
        assert Enabled(s, PutBack(other));
      } else {
        assert s.creating != {};
        var other :| other in s.creating;
        assert Enabled(s, PutFirst(other));
      }
    }
  }

  /** The channel, and the callers of `WithWorkspaceMutationContext` that are between two of its steps. */
  class Lock {
    var created: bool
    var tokens: nat
    var creating: set<Id>
    var waiting: set<Id>
    var acting: set<Id>

    function Abs(): State
      reads this
    {
      State(created, tokens, creating, waiting, acting)
    }

    constructor ()
      ensures Abs() == Initial()
    {
      created, tokens, creating, waiting, acting := false, 0, {}, {}, {};
    }

    method Arrive(id: Id)
      requires OneToken(Abs()) && Enabled(Abs(), LoadOrStore(id))
      modifies this
      ensures OneToken(Abs()) && Abs() == Step(old(Abs()), LoadOrStore(id))
      ensures created && tokens == old(tokens) && acting == old(acting)
      ensures if old(created) then waiting == old(waiting) + {id} && creating == old(creating)
        else creating == old(creating) + {id} && waiting == old(waiting)
    {
      var loaded := created;
      created := true;
      if loaded { waiting := waiting + {id}; } else { creating := creating + {id}; }
    }

    method SendFirst(id: Id)
      requires OneToken(Abs()) && id in creating
      modifies this
      ensures OneToken(Abs()) && Abs() == Step(old(Abs()), PutFirst(id))
      ensures tokens == 1 && creating == old(creating) - {id} && waiting == old(waiting) + {id}
      ensures acting == old(acting) && created == old(created)
    {
      tokens := tokens + 1;
      creating, waiting := creating - {id}, waiting + {id};
    }

    /** The `select`: with the context done and a token there, either may be chosen. */
    method Select(id: Id, cancelled: bool) returns (acts: bool)
      requires OneToken(Abs()) && id in waiting && (cancelled || tokens > 0)
      modifies this
      ensures !cancelled ==> acts
      ensures Enabled(old(Abs()), if acts then Take(id) else Cancel(id))
      ensures OneToken(Abs()) && Abs() == Step(old(Abs()), if acts then Take(id) else Cancel(id))
      ensures waiting == old(waiting) - {id} && creating == old(creating) && created == old(created)
      ensures if acts then old(tokens) == 1 && tokens == 0 && acting == {id}
        else tokens == old(tokens) && acting == old(acting)
    {
      var choice: bool := *;
      acts := tokens > 0 && (!cancelled || choice);
      waiting := waiting - {id};
      if acts {
        tokens := tokens - 1;
        acting := acting + {id};
      }
    }

    method GiveBack(id: Id)
      requires OneToken(Abs()) && id in acting
      modifies this
      ensures OneToken(Abs()) && Abs() == Step(old(Abs()), PutBack(id))
      ensures tokens == 1 && acting == {} && waiting == old(waiting)
      ensures creating == old(creating) && created == old(created)
    {
      tokens := tokens + 1;
      acting := acting - {id};
    }
  }
}
