/**
 The content switcher object: one selected code, the list of codes it was
 created with, two fixed settings, and a table of registered content that grows
 as content is added. Lookups resolve against the selection current at the
 moment they run; a deferred lookup is a closure over the registry itself.
 */
module ContentSwitcher {
  import opened Content

  /** What the callable resolver returns: a resolved outcome in immediate mode,
      a closure to run later in defer mode. */
  datatype Answer<V> = Now(outcome: Outcome<V>) | Later(thunk: Thunk<V>)

  class Registry<V> {
    var selected: string
    const codes: seq<string>
    const deferMode: bool
    const strict: bool
    var byId: Table<V>

    /** Creates a registry. The first code is selected; with no codes the
        selection is JavaScript's `undefined`, which every later use reads as
        the text "undefined". */
    constructor (codes: seq<string>, options: Options)
      ensures selected == (if |codes| > 0 then codes[0] else UndefinedCode)
      ensures this.codes == codes && byId == map[]
      ensures deferMode == Normalise(options).deferMode
      ensures strict == Normalise(options).strict
    {
      selected := if |codes| > 0 then codes[0] else UndefinedCode;
      this.codes := codes;
      var config := Normalise(options);
      deferMode := config.deferMode;
      strict := config.strict;
      byId := map[];
    }

    /** Makes `code` the selected code, whether or not it is one of `codes`. */
    method Switch(code: string)
      modifies this`selected
      ensures selected == code
      ensures byId == old(byId)
    {
      selected := code;
    }

    /** Registers `values` under `id`, replacing what was there before. */
    method Add(id: string, values: map<string, V>)
      modifies this`byId
      ensures byId == old(byId)[id := values]
      ensures selected == old(selected)
    {
      byId := byId[id := values];
    }

    /** Resolves a lookup now, whatever the mode. */
    method Get(arg: Lookup<V>) returns (r: Outcome<V>)
      ensures r == Resolve(selected, strict, byId, arg)
      ensures r.Error? ==> strict && IsInfix(selected, r.msg)
    {
      r := Resolve(selected, strict, byId, arg);
    }

    /** Wraps a lookup in a closure over this registry, whatever the mode. */
    method Defer(arg: Lookup<V>) returns (t: Thunk<V>)
      ensures fresh(t) && t.owner == this && t.arg == arg
    {
      t := new Thunk(this, arg);
    }

    /** The registry called as a function: a closure in defer mode, the
        resolved outcome otherwise. */
    method Call(arg: Lookup<V>) returns (a: Answer<V>)
      ensures deferMode ==> a.Later? && fresh(a.thunk) && a.thunk.owner == this && a.thunk.arg == arg
      ensures !deferMode ==> a == Now(Resolve(selected, strict, byId, arg))
    {
      if deferMode {
        var t := Defer(arg);
        a := Later(t);
      } else {
        var r := Get(arg);
        a := Now(r);
      }
    }
  }

  /** A deferred lookup: it keeps the registry, not a copy of its state. */
  class Thunk<V> {
    const owner: Registry<V>
    const arg: Lookup<V>

    constructor (owner: Registry<V>, arg: Lookup<V>)
      ensures this.owner == owner && this.arg == arg
    {
      this.owner := owner;
      this.arg := arg;
    }

    /** Runs the lookup against the registry's state at the time of the call. */
    method Invoke() returns (r: Outcome<V>)
      ensures r == Resolve(owner.selected, owner.strict, owner.byId, arg)
    {
      r := owner.Get(arg);
    }
  }
}
