/**
 Clients of the registry: each method drives a fresh registry through a short
 sequence of calls and states, in its postcondition, what the documented
 behaviour says the calls must return.
 */
module Scenarios {
  import opened Content
  import opened ContentSwitcher

  /** A new registry resolves an inline object against the first code. */
  method InitialSelection<V>(codes: seq<string>, options: Options, obj: Obj<V>) returns (r: Outcome<V>)
    requires |codes| > 0 && codes[0] in obj.values
    ensures r == Value(obj.values[codes[0]])
  {
    var reg := new Registry<V>(codes, options);
    r := reg.Get(Inline(obj));
  }

  /** After switching from `a` to `b`, an inline lookup gives the value for `b`. */
  method SwitchChangesResolution<V>(a: string, b: string, obj: Obj<V>) returns (before: Outcome<V>, after: Outcome<V>)
    requires a in obj.values && b in obj.values
    ensures before == Value(obj.values[a])
    ensures after == Value(obj.values[b])
  {
    var reg := new Registry<V>([a, b], NoOptions);
    before := reg.Get(Inline(obj));
    reg.Switch(b);
    after := reg.Get(Inline(obj));
  }

  /** Registered content is found by its ID under the selected code. */
  method IdentifierRoundTrip() returns (r: Outcome<string>)
    ensures r == Value("Salut")
  {
    var reg := new Registry<string>(["en", "fr"], NoOptions);
    reg.Add("greeting", map["en" := "Hi", "fr" := "Salut"]);
    reg.Switch("fr");
    r := reg.Get(ById("greeting"));
  }

  /** In strict mode an unregistered ID throws, naming the selected code and the ID. */
  method StrictMiss<V>(codes: seq<string>, id: string) returns (r: Outcome<V>)
    requires |codes| > 0
    ensures r.Error? && IsInfix(codes[0], r.msg) && IsInfix(Quote(id), r.msg)
  {
    var reg := new Registry<V>(codes, Settings(None, true));
    r := reg.Get(ById(id));
    MessageNamesId<V>(codes[0], id);
  }

  /** Without strict mode the same miss yields `undefined`. */
  method LenientMiss<V>(codes: seq<string>, id: string, obj: Obj<V>) returns (r1: Outcome<V>, r2: Outcome<V>)
    requires |codes| > 0 && codes[0] !in obj.values
    ensures r1 == Absent && r2 == Absent
  {
    var reg := new Registry<V>(codes, Settings(None, false));
    r1 := reg.Get(ById(id));
    r2 := reg.Get(Inline(obj));
  }

  /** In defer mode the resolver hands back a closure, and a switch made after
      creating it and before running it decides what it returns. */
  method DeferredSeesSwitch<V>(a: string, b: string, obj: Obj<V>) returns (first: Outcome<V>, second: Outcome<V>)
    requires a in obj.values && b in obj.values
    ensures first == Value(obj.values[a])
    ensures second == Value(obj.values[b])
  {
    var reg := new Registry<V>([a, b], Shorthand("defer"));
    var answer := reg.Call(Inline(obj));
    var thunk := answer.thunk;
    first := thunk.Invoke();
    reg.Switch(b);
    second := thunk.Invoke();
  }

  /** `get` resolves now even in defer mode, and `defer` waits even in
      immediate mode. */
  method EscapeHatches<V>(a: string, b: string, obj: Obj<V>) returns (now: Outcome<V>, later: Outcome<V>)
    requires a in obj.values && b in obj.values
    ensures now == Value(obj.values[a])
    ensures later == Value(obj.values[b])
  {
    var lazy := new Registry<V>([a], Settings(Some("defer"), false));
    now := lazy.Get(Inline(obj));
    var eager := new Registry<V>([a], NoOptions);
    var thunk := eager.Defer(Inline(obj));
    eager.Switch(b);
    later := thunk.Invoke();
  }

  /** The hello/bonjour walk-through: register, resolve, switch, resolve. */
  method HelloBonjour() returns (first: Outcome<string>, second: Outcome<string>)
    ensures first == Value("Hello") && second == Value("Bonjour")
  {
    var reg := new Registry<string>(["en", "fr"], NoOptions);
    reg.Add("hello", map["en" := "Hello", "fr" := "Bonjour"]);
    var answer := reg.Call(ById("hello"));
    first := answer.outcome;
    reg.Switch("fr");
    answer := reg.Call(ById("hello"));
    second := answer.outcome;
  }
}
