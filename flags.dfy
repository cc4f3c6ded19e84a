/** The command line: `--bind key:spec` (repeatable), `--hold`/`-h`,
    `--input text`, then the child's command, either after `--` or
    starting at the first argument that is not an option. */
module Flags {
  import opened Wrappers
  import opened Text

  datatype ParsedFlag = ParsedFlag(cmd: seq<Bytes>, keymap: map<Bytes, Bytes>, hold: bool, input: Bytes)

  const NoFlags := ParsedFlag([], map[], false, [])

  /** `Usage` is the fatal usage message (a binding without `:`, or no
      command); `MissingValue` is the index panic of `--bind` or
      `--input` given as the last argument. */
  datatype FlagError = Usage | MissingValue

  const DashDash := Ascii("--")
  const BindFlag := Ascii("--bind")
  const HoldFlag := Ascii("--hold")
  const HoldShort := Ascii("-h")
  const InputFlag := Ascii("--input")
  const Colon: byte := 58

  predicate IsOption(a: Bytes) {
    a == DashDash || a == BindFlag || a == HoldFlag || a == HoldShort || a == InputFlag
  }

  /** What the option loop makes of `args` when it has already gathered
      `acc`. */
  function ParseOptions(args: seq<Bytes>, acc: ParsedFlag): Result<ParsedFlag, FlagError>
    decreases |args|
  {
    if args == [] then Ok(acc)
    else if args[0] == DashDash then Ok(acc.(cmd := args[1..]))
    else if args[0] == BindFlag then
      if |args| < 2 then Err(MissingValue)
      else match SplitFirst(args[1], Colon)
        case None => Err(Usage)
        case Some((k, v)) => ParseOptions(args[2..], acc.(keymap := acc.keymap[k := TrimSpace(v)]))
    else if args[0] == HoldFlag || args[0] == HoldShort then ParseOptions(args[1..], acc.(hold := true))
    else if args[0] == InputFlag then
      if |args| < 2 then Err(MissingValue) else ParseOptions(args[2..], acc.(input := args[1]))
    else Ok(acc.(cmd := args))
  }

  /** The whole command line: the options, then the check that a command
      was given. */
  function ParseArgs(args: seq<Bytes>): Result<ParsedFlag, FlagError> {
    match ParseOptions(args, NoFlags)
    case Err(e) => Err(e)
    case Ok(p) => if p.cmd == [] then Err(Usage) else Ok(p)
  }

  /** Consumes the arguments (those after the program name) from the
      front, as the program's loop does. */
  method ParseFlag(args0: seq<Bytes>) returns (r: Result<ParsedFlag, FlagError>)
    ensures r == ParseArgs(args0)
  {
    var parsed := NoFlags;
    var args := args0;
    while |args| > 0
      invariant ParseOptions(args, parsed) == ParseOptions(args0, NoFlags)
      decreases |args|
    {
      if args[0] == DashDash {
        parsed := parsed.(cmd := args[1..]);
        args := [];
      } else if args[0] == BindFlag {
        if |args| < 2 {
          return Err(MissingValue);
        }
        var pair := SplitFirst(args[1], Colon);
        if pair.None? {
          return Err(Usage);
        }
        parsed := parsed.(keymap := parsed.keymap[pair.value.0 := TrimSpace(pair.value.1)]);
        args := args[2..];
      } else if args[0] == HoldFlag || args[0] == HoldShort {
        parsed := parsed.(hold := true);
        args := args[1..];
      } else if args[0] == InputFlag {
        if |args| < 2 {
          return Err(MissingValue);
        }
        parsed := parsed.(input := args[1]);
        args := args[2..];
      } else {
        parsed := parsed.(cmd := args);
        args := [];
      }
    }
    if |parsed.cmd| == 0 {
      return Err(Usage);
    }
    return Ok(parsed);
  }

  // ---------------------------------------------------------------------
  // Writing a command line and reading it back
  // ---------------------------------------------------------------------

  /** `--bind key:spec` for each pair, in order. */
  function RenderBindings(bs: seq<(Bytes, Bytes)>): seq<Bytes> {
    if bs == [] then [] else [BindFlag, bs[0].0 + [Colon] + bs[0].1] + RenderBindings(bs[1..])
  }

  /** The table the bindings give, applied in order on top of `acc`. */
  function Bound(acc: map<Bytes, Bytes>, bs: seq<(Bytes, Bytes)>): map<Bytes, Bytes>
    decreases |bs|
  {
    if bs == [] then acc else Bound(acc[bs[0].0 := TrimSpace(bs[0].1)], bs[1..])
  }

  predicate KeysWithoutColon(bs: seq<(Bytes, Bytes)>) {
    forall i | 0 <= i < |bs| :: Colon !in bs[i].0
  }

  function RenderArgs(bs: seq<(Bytes, Bytes)>, hold: bool, input: Option<Bytes>, dashDash: bool, cmd: seq<Bytes>): seq<Bytes> {
    RenderBindings(bs)
      + (if hold then [HoldFlag] else [])
      + (match input case Some(i) => [InputFlag, i] case None => [])
      + (if dashDash then [DashDash] else [])
      + cmd
  }

  lemma {:induction false} ParseBindings(bs: seq<(Bytes, Bytes)>, rest: seq<Bytes>, acc: ParsedFlag)
    requires KeysWithoutColon(bs)
    ensures ParseOptions(RenderBindings(bs) + rest, acc) == ParseOptions(rest, acc.(keymap := Bound(acc.keymap, bs)))
    decreases |bs|
  {
    if bs != [] {
      var (k, v) := bs[0];
      var args := RenderBindings(bs) + rest;
      var acc' := acc.(keymap := acc.keymap[k := TrimSpace(v)]);
      assert args[0] == BindFlag && args[1] == k + [Colon] + v;
      assert args[2..] == RenderBindings(bs[1..]) + rest;
      assert BindFlag != DashDash by { assert |BindFlag| != |DashDash|; }
      SplitFirstJoin(k, v, Colon);
      assert ParseOptions(args, acc) == ParseOptions(args[2..], acc');
      assert KeysWithoutColon(bs[1..]) by {
        forall i | 0 <= i < |bs[1..]| ensures Colon !in bs[1..][i].0 {
          assert bs[1..][i] == bs[i + 1];
        }
      }
      ParseBindings(bs[1..], rest, acc');
      assert ParseOptions(args[2..], acc') == ParseOptions(rest, acc'.(keymap := Bound(acc'.keymap, bs[1..])));
      assert Bound(acc.keymap, bs) == Bound(acc'.keymap, bs[1..]);
      assert acc'.(keymap := Bound(acc'.keymap, bs[1..])) == acc.(keymap := Bound(acc.keymap, bs));
    } else {
      assert RenderBindings(bs) + rest == rest;
      assert acc.(keymap := Bound(acc.keymap, bs)) == acc;
    }
  }

  lemma ParseHold(hold: bool, rest: seq<Bytes>, acc: ParsedFlag)
    ensures ParseOptions((if hold then [HoldFlag] else []) + rest, acc) == ParseOptions(rest, acc.(hold := acc.hold || hold))
  {
    if hold {
      assert HoldFlag != DashDash && HoldFlag != BindFlag by {
        assert |HoldFlag| != |DashDash| && HoldFlag[2] != BindFlag[2];
      }
      assert ([HoldFlag] + rest)[1..] == rest;
    } else {
      assert [] + rest == rest;
      assert acc.(hold := acc.hold) == acc;
    }
  }

  lemma ParseInput(input: Option<Bytes>, rest: seq<Bytes>, acc: ParsedFlag)
    ensures ParseOptions((match input case Some(i) => [InputFlag, i] case None => []) + rest, acc)
         == ParseOptions(rest, match input case Some(i) => acc.(input := i) case None => acc)
  {
    if input.Some? {
      assert InputFlag != DashDash && InputFlag != BindFlag && InputFlag != HoldFlag && InputFlag != HoldShort by {
        assert |InputFlag| == 7 && |DashDash| == 2 && |BindFlag| == 6 && |HoldFlag| == 6 && |HoldShort| == 2;
      }
      assert ([InputFlag, input.value] + rest)[2..] == rest;
    } else {
      assert [] + rest == rest;
    }
  }

  lemma ParseCommand(dashDash: bool, cmd: seq<Bytes>, acc: ParsedFlag)
    requires cmd != [] && (dashDash || !IsOption(cmd[0]))
    ensures ParseOptions((if dashDash then [DashDash] else []) + cmd, acc) == Ok(acc.(cmd := cmd))
  {
    if dashDash {
      assert ([DashDash] + cmd)[1..] == cmd;
    } else {
      assert [] + cmd == cmd;
    }
  }

  /** Reading back a rendered command line gives the bindings (a later
      binding of a key replacing an earlier one), the hold flag, the
      input and the command, every word of it unchanged; the command may
      follow `--` or start with its first word when that is no option. */
  lemma ParseRendered(bs: seq<(Bytes, Bytes)>, hold: bool, input: Option<Bytes>, dashDash: bool, cmd: seq<Bytes>)
    requires KeysWithoutColon(bs)
    requires cmd != [] && (dashDash || !IsOption(cmd[0]))
    ensures ParseArgs(RenderArgs(bs, hold, input, dashDash, cmd))
         == Ok(ParsedFlag(cmd, Bound(map[], bs), hold, match input case Some(i) => i case None => []))
  {
    var hs: seq<Bytes> := if hold then [HoldFlag] else [];
    var ins: seq<Bytes> := match input case Some(i) => [InputFlag, i] case None => [];
    var ds: seq<Bytes> := if dashDash then [DashDash] else [];
    var args := RenderArgs(bs, hold, input, dashDash, cmd);
    RenderArgsParts(bs, hs, ins, ds, cmd);
    var p1 := NoFlags.(keymap := Bound(map[], bs));
    ParseBindings(bs, hs + (ins + (ds + cmd)), NoFlags);
    var p2 := p1.(hold := hold);
    ParseHold(hold, ins + (ds + cmd), p1);
    var p3 := match input case Some(i) => p2.(input := i) case None => p2;
    ParseInput(input, ds + cmd, p2);
    ParseCommand(dashDash, cmd, p3);
    assert ParseOptions(args, NoFlags) == Ok(p3.(cmd := cmd));
  }

  lemma RenderArgsParts(bs: seq<(Bytes, Bytes)>, hs: seq<Bytes>, ins: seq<Bytes>, ds: seq<Bytes>, cmd: seq<Bytes>)
    ensures RenderBindings(bs) + hs + ins + ds + cmd == RenderBindings(bs) + (hs + (ins + (ds + cmd)))
  {
  }

  /** The value kept for a key is the trimmed spec of its last binding. */
  lemma {:induction false} BoundLast(acc: map<Bytes, Bytes>, bs: seq<(Bytes, Bytes)>, i: nat)
    requires i < |bs|
    requires forall j | i < j < |bs| :: bs[j].0 != bs[i].0
    ensures bs[i].0 in Bound(acc, bs) && Bound(acc, bs)[bs[i].0] == TrimSpace(bs[i].1)
    decreases |bs|
  {
    var acc' := acc[bs[0].0 := TrimSpace(bs[0].1)];
    assert Bound(acc, bs) == Bound(acc', bs[1..]);
    if i == 0 {
      forall j | 0 <= j < |bs[1..]| ensures bs[1..][j].0 != bs[0].0 {
        assert bs[1..][j] == bs[j + 1];
      }
      BoundUntouched(acc', bs[1..], bs[0].0);
    } else {
      forall j | i - 1 < j < |bs[1..]| ensures bs[1..][j].0 != bs[1..][i - 1].0 {
        assert bs[1..][j] == bs[j + 1];
      }
      BoundLast(acc', bs[1..], i - 1);
    }
  }

  /** Bindings of other keys leave a key's value alone. */
  lemma {:induction false} BoundUntouched(acc: map<Bytes, Bytes>, bs: seq<(Bytes, Bytes)>, k: Bytes)
    requires k in acc
    requires forall j | 0 <= j < |bs| :: bs[j].0 != k
    ensures k in Bound(acc, bs) && Bound(acc, bs)[k] == acc[k]
    decreases |bs|
  {
    if bs != [] {
      var acc' := acc[bs[0].0 := TrimSpace(bs[0].1)];
      assert Bound(acc, bs) == Bound(acc', bs[1..]);
      forall j | 0 <= j < |bs[1..]| ensures bs[1..][j].0 != k {
        assert bs[1..][j] == bs[j + 1];
      }
      BoundUntouched(acc', bs[1..], k);
    }
  }

  /** A binding without `:` stops the program with the usage message. */
  lemma BindWithoutColon(b: Bytes, rest: seq<Bytes>, acc: ParsedFlag)
    requires Colon !in b
    ensures ParseOptions([BindFlag, b] + rest, acc) == Err(Usage)
  {
  }

  /** `-h` is another spelling of `--hold`. */
  lemma ParseHoldShort(rest: seq<Bytes>, acc: ParsedFlag)
    ensures ParseOptions([HoldShort] + rest, acc) == ParseOptions([HoldFlag] + rest, acc)
    ensures ParseOptions([HoldShort] + rest, acc) == ParseOptions(rest, acc.(hold := true))
  {
    assert HoldShort != DashDash && HoldShort != BindFlag by {
      assert |HoldShort| != |BindFlag| && HoldShort[1] != DashDash[1];
    }
    assert ([HoldShort] + rest)[1..] == rest;
    ParseHold(true, rest, acc);
  }

  /** Options alone, whatever bindings, hold flag and input they give,
      and whether or not they end in `--`, name no command: usage
      error. */
  lemma NoCommand(bs: seq<(Bytes, Bytes)>, hold: bool, input: Option<Bytes>, dashDash: bool)
    requires KeysWithoutColon(bs)
    ensures ParseArgs(RenderArgs(bs, hold, input, dashDash, [])) == Err(Usage)
  {
    var hs: seq<Bytes> := if hold then [HoldFlag] else [];
    var ins: seq<Bytes> := match input case Some(i) => [InputFlag, i] case None => [];
    var ds: seq<Bytes> := if dashDash then [DashDash] else [];
    var args := RenderArgs(bs, hold, input, dashDash, []);
    RenderArgsParts(bs, hs, ins, ds, []);
    var p1 := NoFlags.(keymap := Bound(map[], bs));
    ParseBindings(bs, hs + (ins + (ds + [])), NoFlags);
    var p2 := p1.(hold := hold);
    ParseHold(hold, ins + (ds + []), p1);
    var p3 := match input case Some(i) => p2.(input := i) case None => p2;
    ParseInput(input, ds + [], p2);
    if dashDash {
      assert ([DashDash] + [])[1..] == [];
    } else {
      assert ds + [] == [];
    }
    assert ParseOptions(args, NoFlags) == Ok(p3.(cmd := []));
  }

  /** `--bind` or `--input` as the last argument, after any bindings,
      hold flag and input, reads past the end. */
  lemma ValueMissing(bs: seq<(Bytes, Bytes)>, hold: bool, input: Option<Bytes>, flag: Bytes)
    requires KeysWithoutColon(bs)
    requires flag == BindFlag || flag == InputFlag
    ensures ParseArgs(RenderArgs(bs, hold, input, false, [flag])) == Err(MissingValue)
  {
    var hs: seq<Bytes> := if hold then [HoldFlag] else [];
    var ins: seq<Bytes> := match input case Some(i) => [InputFlag, i] case None => [];
    var args := RenderArgs(bs, hold, input, false, [flag]);
    RenderArgsParts(bs, hs, ins, [], [flag]);
    var p1 := NoFlags.(keymap := Bound(map[], bs));
    ParseBindings(bs, hs + (ins + ([] + [flag])), NoFlags);
    var p2 := p1.(hold := hold);
    ParseHold(hold, ins + ([] + [flag]), p1);
    var p3 := match input case Some(i) => p2.(input := i) case None => p2;
    ParseInput(input, [] + [flag], p2);
    assert [] + [flag] == [flag];
    assert flag != DashDash && flag != HoldFlag && flag != HoldShort by {
      assert |flag| > 2 && flag[2] != HoldFlag[2];
    }
    assert ParseOptions([flag], p3) == Err(MissingValue);
  }
}
