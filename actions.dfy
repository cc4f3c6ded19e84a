/** The actions a key can be bound to, and the parsing of the action
    half of a binding (`exit`, `become(<command>)`, `execute(<command>)`). */
module Actions {
  import opened Wrappers
  import opened Text

  /** `Unset` is the zero value of the program's string-typed action
      kind: the kind of an action built from a spec it does not
      recognise. */
  datatype ActionType = Unset | Exit | Become | Execute

  datatype Action = Action(kind: ActionType, arg: Bytes)

  /** The action with no kind and no argument (Go's zero `Action{}`). */
  const ZeroAction := Action(Unset, [])

  /** The action the reader synthesises to leave the hold screen. */
  const ExitAction := Action(Exit, [])

  /** The ways compiling a binding stops the program: an unknown key
      literal (an explicit panic) or a slice whose bounds are reversed
      (a run-time panic). */
  datatype Panic = UnknownKey(key: Bytes) | SliceOutOfRange

  const ExitSpec := Ascii("exit")
  const BecomePrefix := Ascii("become(")
  const ExecutePrefix := Ascii("execute(")

  /** The action a binding's value denotes.  The argument of `become(`
      and `execute(` is everything after the opening prefix except the
      last byte, which is dropped without checking that it is `)`.  The
      slice panics when nothing follows the prefix, and any spec that is
      none of the three forms gives the zero action rather than an
      error. */
  function ParseActionSpec(v: Bytes): (r: Result<Action, Panic>)
    ensures r.Err? <==> v == BecomePrefix || v == ExecutePrefix
    ensures r.Err? ==> r.error == SliceOutOfRange
    ensures r.Ok? ==> (r.value.kind == Exit <==> v == ExitSpec)
    ensures r.Ok? ==> (r.value.kind == Become <==> BecomePrefix <= v)
    ensures r.Ok? ==> (r.value.kind == Execute <==> ExecutePrefix <= v)
    ensures !(v == ExitSpec || BecomePrefix <= v || ExecutePrefix <= v) ==> r == Ok(ZeroAction)
    ensures r.Ok? && r.value.kind in {Exit, Unset} ==> r.value.arg == []
    ensures r.Ok? ==> |r.value.arg| < |v| || v == []
  {
    if v == ExitSpec then
      Ok(ExitAction)
    else if BecomePrefix <= v then
      assert v[0] != ExecutePrefix[0];
      if 7 <= |v| - 1 then Ok(Action(Become, v[7..|v| - 1])) else Err(SliceOutOfRange)
    else if ExecutePrefix <= v then
      if 8 <= |v| - 1 then Ok(Action(Execute, v[8..|v| - 1])) else Err(SliceOutOfRange)
    else
      Ok(ZeroAction)
  }

  /** An action the binding syntax can express: a kind other than
      `Unset`, and no argument for `Exit`. */
  predicate Expressible(a: Action) {
    a.kind != Unset && (a.kind == Exit ==> a.arg == [])
  }

  /** The canonical binding value for an action. */
  function RenderAction(a: Action): (v: Bytes)
    requires Expressible(a)
  {
    match a.kind
    case Exit => ExitSpec
    case Become => BecomePrefix + a.arg + Ascii(")")
    case Execute => ExecutePrefix + a.arg + Ascii(")")
  }

  /** Whatever byte ends a `become(`/`execute(` spec is dropped: the
      argument is the text between the prefix and that last byte. */
  lemma LastByteDropped(kind: ActionType, arg: Bytes, last: byte)
    requires kind == Become || kind == Execute
    ensures var prefix := if kind == Become then BecomePrefix else ExecutePrefix;
            ParseActionSpec(prefix + arg + [last]) == Ok(Action(kind, arg))
  {
    var prefix := if kind == Become then BecomePrefix else ExecutePrefix;
    var v := prefix + arg + [last];
    assert prefix <= v;
    assert v != ExitSpec by { assert |v| > |ExitSpec|; }
    if kind == Execute {
      assert !(BecomePrefix <= v) by { assert v[0] != BecomePrefix[0]; }
    }
    assert v[|prefix|..|v| - 1] == arg;
  }

  /** Parsing the rendering of an action gives the action back. */
  lemma ParseRender(a: Action)
    requires Expressible(a)
    ensures ParseActionSpec(RenderAction(a)) == Ok(a)
  {
    if a.kind != Exit {
      assert Ascii(")") == [41 as byte];
      LastByteDropped(a.kind, a.arg, 41);
    }
  }

  /** A spec that parses to an expressible action and ends with `)` (or
      is `exit`) is the rendering of that action. */
  lemma RenderParse(v: Bytes)
    requires ParseActionSpec(v).Ok? && ParseActionSpec(v).value.kind != Unset
    requires v == ExitSpec || v[|v| - 1] == 41
    ensures Expressible(ParseActionSpec(v).value)
    ensures RenderAction(ParseActionSpec(v).value) == v
  {
    var a := ParseActionSpec(v).value;
    if a.kind == Become {
      assert BecomePrefix + v[7..|v| - 1] + Ascii(")") == v;
    } else if a.kind == Execute {
      assert ExecutePrefix + v[8..|v| - 1] + Ascii(")") == v;
    }
  }
}
