/**
 The value-level part of the content switcher: the shapes a lookup argument can
 take, the options accepted at construction, the text of the "content missing"
 error, and the resolution rule that every lookup (immediate or deferred) follows.
 */
module Content {

  datatype Option<T> = None | Some(value: T)

  /** A plain object passed inline: its own property names in enumeration order,
      and the value under each name. */
  datatype Props<V> = Props(keys: seq<string>, values: map<string, V>) {
    /** An object enumerates each of its own properties exactly once. */
    predicate Valid() {
      && (forall i, j :: 0 <= i < j < |keys| ==> keys[i] != keys[j])
      && values.Keys == set k | k in keys
    }
  }

  /** What a JavaScript object always is: a property list without repeats. */
  type Obj<V> = p: Props<V> | p.Valid() witness Props([], map[])

  /** A lookup argument, by the result of `typeof` on it. */
  datatype Lookup<V> =
    | ById(id: string)        // a string: the ID of registered content
    | Inline(obj: Obj<V>)     // an object: a code-to-value map given in place
    | Other                   // a number, a boolean, undefined, a function

  /** What resolving a lookup gives: a value, `undefined`, or a thrown Error. */
  datatype Outcome<V> = Value(value: V) | Absent | Error(msg: string)

  /** The `options` argument of the constructor. */
  datatype Options =
    | NoOptions                                   // undefined or another falsy value: becomes {}
    | Shorthand(text: string)                     // a string s: becomes {mode: s}
    | Settings(mode: Option<string>, strict: bool) // an object; `strict` is the truthiness of its property
    | Unrecognised                                // any other truthy value: it has neither property

  /** The two settings the registry acts on. */
  datatype Config = Config(deferMode: bool, strict: bool)

  /** The code that an empty code list leaves selected: JavaScript's `undefined`,
      which property lookups and string templates both turn into this text. */
  const UndefinedCode := "undefined"

  /** Turns the options argument into the registry's two settings. */
  function Normalise(o: Options): (c: Config)
    ensures c.deferMode <==> (o.Shorthand? && o.text == "defer") || (o.Settings? && o.mode == Some("defer"))
    ensures c.strict <==> o.Settings? && o.strict
  {
    match o
    case NoOptions => Config(false, false)
    case Shorthand(m) => Config(m == "defer", false)
    case Settings(m, s) => Config(m == Some("defer"), s)
    case Unrecognised => Config(false, false)
  }

  /** The string shorthand means exactly the object {mode: s}. */
  lemma ShorthandIsModeOnly(s: string)
    ensures Normalise(Shorthand(s)) == Normalise(Settings(Some(s), false))
    ensures !Normalise(Shorthand(s)).strict
  {
  }

  /** Absent options, or options without `mode` and `strict`, give an immediate,
      lenient registry. */
  lemma DefaultsAreImmediateAndLenient()
    ensures Normalise(NoOptions) == Config(false, false)
    ensures Normalise(Unrecognised) == Config(false, false)
    ensures Normalise(Settings(None, false)) == Config(false, false)
  {
  }

  // ---------------------------------------------------------------------------
  // The "content missing" message
  // ---------------------------------------------------------------------------

  /** `part` occurs in `whole` starting at index `i`. */
  predicate OccursAt(part: string, whole: string, i: int) {
    0 <= i <= |whole| - |part| && whole[i..i + |part|] == part
  }

  /** `part` occurs somewhere in `whole`. */
  predicate IsInfix(part: string, whole: string) {
    exists i :: 0 <= i <= |whole| && OccursAt(part, whole, i)
  }

  function Quote(k: string): string {
    "\"" + k + "\""
  }

  /** The keys, each in double quotes, joined by ", ". */
  function QuotedList(keys: seq<string>): (s: string)
    ensures s == [] <==> keys == []
    ensures |keys| == 1 ==> s == Quote(keys[0])
  {
    if |keys| == 0 then ""
    else if |keys| == 1 then Quote(keys[0])
    else Quote(keys[0]) + ", " + QuotedList(keys[1..])
  }

  /** Joining two non-empty key lists puts ", " between their joins: together
      with the one-key case, the join holds the quoted keys in order, separated
      by ", ", and nothing else. */
  lemma {:induction false} QuotedListAppend(a: seq<string>, b: seq<string>)
    requires a != [] && b != []
    ensures QuotedList(a + b) == QuotedList(a) + ", " + QuotedList(b)
  {
    if |a| == 1 {
      assert (a + b)[1..] == b;
    } else {
      assert (a + b)[1..] == a[1..] + b;
      QuotedListAppend(a[1..], b);
    }
  }

  /** How the message names the lookup argument. */
  function Descriptor<V>(arg: Lookup<V>): (d: string)
    ensures |d| >= 7 && d[..7] == "content"
    ensures arg.Other? <==> d == "content"
  {
    match arg
    case ById(id) => "content ID " + Quote(id)
    case Inline(obj) => "content with codes " + QuotedList(obj.keys)
    case Other => "content"
  }

  const MissingPrefix := "Content missing for code "

  /** The message of the error thrown when strict resolution finds nothing. */
  function ErrorMessage<V>(code: string, arg: Lookup<V>): (msg: string)
    ensures |msg| > |MissingPrefix| + |code|
    ensures msg[..|MissingPrefix|] == MissingPrefix
    ensures msg[|MissingPrefix|..|MissingPrefix| + |code|] == code
  {
    MissingPrefix + code + " in " + Descriptor(arg)
  }

  lemma InfixOfConcat(part: string, a: string, b: string)
    ensures IsInfix(part, a) ==> IsInfix(part, a + b)
    ensures IsInfix(part, b) ==> IsInfix(part, a + b)
  {
    if IsInfix(part, a) {
      var i :| 0 <= i <= |a| && OccursAt(part, a, i);
      assert (a + b)[i..i + |part|] == a[i..i + |part|];
      assert OccursAt(part, a + b, i);
    }
    if IsInfix(part, b) {
      var j :| 0 <= j <= |b| && OccursAt(part, b, j);
      assert 0 <= j <= |b| - |part|;
      assert (a + b)[|a| + j..|a| + j + |part|] == b[j..j + |part|];
      assert OccursAt(part, a + b, |a| + j);
    }
  }

  lemma InfixOfSelf(s: string)
    ensures IsInfix(s, s)
  {
    assert s[0..|s|] == s;
    assert OccursAt(s, s, 0);
  }

  /** Every key of the object appears, quoted, in the joined list. */
  lemma {:induction false} QuotedListHasEveryKey(keys: seq<string>, k: string)
    requires k in keys
    ensures IsInfix(Quote(k), QuotedList(keys))
  {
    if keys[0] == k {
      InfixOfSelf(Quote(k));
      if |keys| > 1 {
        InfixOfConcat(Quote(k), Quote(k), ", " + QuotedList(keys[1..]));
        assert Quote(k) + (", " + QuotedList(keys[1..])) == QuotedList(keys);
      }
    } else {
      QuotedListHasEveryKey(keys[1..], k);
      InfixOfConcat(Quote(k), Quote(keys[0]) + ", ", QuotedList(keys[1..]));
    }
  }

  /** The message always names the selected code. */
  lemma MessageNamesCode<V>(code: string, arg: Lookup<V>)
    ensures IsInfix(code, ErrorMessage(code, arg))
  {
    assert OccursAt(code, ErrorMessage(code, arg), |MissingPrefix|);
  }

  /** Whatever the descriptor contains, the message contains. */
  lemma InfixOfMessage<V>(part: string, code: string, arg: Lookup<V>)
    requires IsInfix(part, Descriptor(arg))
    ensures IsInfix(part, ErrorMessage(code, arg))
  {
    InfixOfConcat(part, MissingPrefix + code + " in ", Descriptor(arg));
  }

  /** For an ID lookup, the message quotes the ID. */
  lemma MessageNamesId<V>(code: string, id: string)
    ensures IsInfix(Quote(id), ErrorMessage<V>(code, ById(id)))
  {
    InfixOfSelf(Quote(id));
    InfixOfConcat(Quote(id), "content ID ", Quote(id));
    InfixOfMessage<V>(Quote(id), code, ById(id));
  }

  /** For an inline object, the message quotes every code the object has. */
  lemma MessageListsEveryCode<V>(code: string, obj: Obj<V>, k: string)
    requires k in obj.values
    ensures IsInfix(Quote(k), ErrorMessage(code, Inline(obj)))
  {
    assert k in obj.keys by {
      assert k in obj.values.Keys;
    }
    QuotedListHasEveryKey(obj.keys, k);
    InfixOfConcat(Quote(k), "content with codes ", QuotedList(obj.keys));
    InfixOfMessage(Quote(k), code, Inline(obj));
  }

  /** An empty inline object leaves the list of codes empty, ending the message in a space. */
  lemma EmptyObjectMessage<V>(code: string)
    ensures ErrorMessage<V>(code, Inline(Props([], map[]))) == MissingPrefix + code + " in content with codes "
  {
  }

  // ---------------------------------------------------------------------------
  // Resolution
  // ---------------------------------------------------------------------------

  /** The table of registered content: content ID to (code to value). */
  type Table<V> = map<string, map<string, V>>

  /** Resolves a lookup against a selected code, a strictness setting and the table. */
  function Resolve<V>(selected: string, strict: bool, byId: Table<V>, arg: Lookup<V>): (r: Outcome<V>)
    ensures r.Error? ==> strict && !arg.Other? && IsInfix(selected, r.msg)
    ensures arg.Other? ==> r == Absent
  {
    match arg
    case ById(id) =>
      if id in byId && selected in byId[id] then Value(byId[id][selected])
      else if strict then Missing(selected, arg)
      else Absent
    case Inline(obj) =>
      if selected in obj.values then Value(obj.values[selected])
      else if strict then Missing(selected, arg)
      else Absent
    case Other => Absent
  }

  /** The error a strict miss throws. */
  function Missing<V>(selected: string, arg: Lookup<V>): (r: Outcome<V>)
    ensures r.Error? && IsInfix(selected, r.msg)
  {
    MessageNamesCode(selected, arg);
    Error(ErrorMessage(selected, arg))
  }

  /** An ID lookup yields a value exactly when the ID is registered with an entry
      for the selected code, and then it is that entry. */
  lemma ResolveById<V>(selected: string, strict: bool, byId: Table<V>, id: string)
    ensures var r := Resolve(selected, strict, byId, ById(id));
      && (r.Value? <==> id in byId && selected in byId[id])
      && (r.Value? ==> r.value == byId[id][selected])
  {
  }

  /** An inline lookup yields a value exactly when the object has the selected
      code, and then it is the object's value for it. */
  lemma ResolveInline<V>(selected: string, strict: bool, byId: Table<V>, obj: Obj<V>)
    ensures var r := Resolve(selected, strict, byId, Inline(obj));
      && (r.Value? <==> selected in obj.values)
      && (r.Value? ==> r.value == obj.values[selected])
      && r == Resolve(selected, strict, map[], Inline(obj))
  {
  }

  /** A miss throws exactly in strict mode and for a string or object argument,
      with the formatted message; otherwise it yields `undefined`. */
  lemma MissPolicy<V>(selected: string, strict: bool, byId: Table<V>, arg: Lookup<V>)
    ensures var r := Resolve(selected, strict, byId, arg);
      && (r.Error? <==> strict && !arg.Other? && !r.Value?)
      && (r.Error? ==> r.msg == ErrorMessage(selected, arg))
      && (arg.Other? ==> r == Absent)
  {
  }

  /** Registering content under an ID decides what that ID resolves to, and
      nothing else. */
  lemma ResolveAfterRegister<V>(selected: string, strict: bool, byId: Table<V>, id: string, values: map<string, V>, arg: Lookup<V>)
    ensures arg == ById(id) && selected in values ==>
      Resolve(selected, strict, byId[id := values], arg) == Value(values[selected])
    ensures arg == ById(id) && selected !in values ==>
      Resolve(selected, strict, byId[id := values], arg) == Resolve(selected, strict, map[], arg)
    ensures arg != ById(id) ==>
      Resolve(selected, strict, byId[id := values], arg) == Resolve(selected, strict, byId, arg)
  {
  }
}
