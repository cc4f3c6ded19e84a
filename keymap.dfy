/** The key-map compiler: turns the user's `key -> action spec` bindings
    into the table the keystroke reader consults, from the exact bytes a
    terminal sends for a key to the bound action. */
module Keymap {
  import opened Wrappers
  import opened Text
  import opened Actions

  const Esc: byte := 27
  const CtrlPrefix := Ascii("ctrl-")
  const Enter := Ascii("enter")
  const Tab := Ascii("tab")
  const CsiPrefix := [Esc] + Ascii("[")
  const CsiUSuffix := Ascii(";5u")

  /** The CSI-u sequence a terminal sends for Ctrl held with the key whose
      code is `code`: ESC `[` <decimal code> `;5u`. */
  function CsiU(code: byte): (r: Bytes)
    ensures |r| >= 6
  {
    CsiPrefix + Decimal(code as nat) + CsiUSuffix
  }

  /** Reads a CSI-u Ctrl sequence back into the key code it carries. */
  function ParseCsiU(s: Bytes): Option<byte> {
    if |s| >= 6 && s[..2] == CsiPrefix && s[|s| - 3..] == CsiUSuffix then
      var digits := s[2..|s| - 3];
      if AllDigits(digits) && DigitsValue(digits) < 256 then Some(DigitsValue(digits) as byte) else None
    else None
  }

  lemma CsiURoundTrip(code: byte)
    ensures ParseCsiU(CsiU(code)) == Some(code)
  {
    var d := Decimal(code as nat);
    var s := CsiU(code);
    assert s[..2] == CsiPrefix;
    assert s[|s| - 3..] == CsiUSuffix;
    assert s[2..|s| - 3] == d;
    DecimalRoundTrip(code as nat);
  }

  /** Different key codes give different CSI-u sequences. */
  lemma CsiUInjective(a: byte, b: byte)
    requires CsiU(a) == CsiU(b)
    ensures a == b
  {
    CsiURoundTrip(a);
    CsiURoundTrip(b);
  }

  predicate IsLowerLetter(c: byte) {
    97 <= c <= 122
  }

  /** The classic C0 control byte for Ctrl held with a lower-case letter:
      `a` gives 1, ..., `z` gives 26. */
  function ControlByte(c: byte): (r: byte)
    requires IsLowerLetter(c)
    ensures 1 <= r <= 26
  {
    c - 97 + 1
  }

  /** The byte strings one key literal is registered under, or the panic
      an unknown literal raises.  A one-byte literal stands for itself;
      `ctrl-` followed by exactly one byte gives its CSI-u sequence and,
      for a lower-case letter, also its C0 control byte; `enter` and `tab`
      give newline and tab. */
  function KeyStrings(k: Bytes): (r: Result<seq<Bytes>, Panic>)
    ensures r.Ok? ==> 1 <= |r.value| <= 2 && forall i | 0 <= i < |r.value| :: r.value[i] != []
    ensures r.Err? ==> r.error == UnknownKey(k)
  {
    if |k| == 1 then Ok([k])
    else if CtrlPrefix <= k && |k[5..]| == 1 then
      var code := k[5];
      Ok([CsiU(code)] + if IsLowerLetter(code) then [[ControlByte(code)]] else [])
    else if k == Enter then Ok([[10]])
    else if k == Tab then Ok([[9]])
    else Err(UnknownKey(k))
  }

  /** The grammar of key literals, stated independently of KeyStrings. */
  predicate IsKeyLiteral(k: Bytes) {
    |k| == 1 || (|k| == 6 && k[..5] == CtrlPrefix) || k == Enter || k == Tab
  }

  lemma KeyStringsAcceptsGrammar(k: Bytes)
    ensures KeyStrings(k).Ok? <==> IsKeyLiteral(k)
  {
  }

  /** A one-byte literal is registered under exactly that byte. */
  lemma SingleByteKey(k: Bytes)
    requires |k| == 1
    ensures KeyStrings(k) == Ok([k])
  {
  }

  /** `ctrl-c` is registered under the CSI-u sequence carrying `c` and,
      exactly when `c` is a lower-case letter, also under its control
      byte; the two strings differ. */
  lemma CtrlKey(c: byte)
    ensures var r := KeyStrings(CtrlPrefix + [c]);
      && r.Ok?
      && r.value[0] == CsiU(c)
      && ParseCsiU(r.value[0]) == Some(c)
      && (|r.value| == 2 <==> IsLowerLetter(c))
      && (IsLowerLetter(c) ==> r.value[1] == [ControlByte(c)] && r.value[0] != r.value[1])
  {
    var k := CtrlPrefix + [c];
    assert CtrlPrefix <= k && k[5] == c;
    CsiURoundTrip(c);
  }

  /** `ctrl-` followed by no byte or by several is an unknown key. */
  lemma CtrlNeedsOneByte(t: Bytes)
    requires |t| != 1
    ensures KeyStrings(CtrlPrefix + t) == Err(UnknownKey(CtrlPrefix + t))
  {
    var k := CtrlPrefix + t;
    assert k != Enter && k != Tab by {
      if |t| == 0 { assert k[0] != Enter[0]; }
    }
  }

  /** Different literals can share a byte string, so when both are bound
      the winner depends on map iteration order: `tab` and `ctrl-i` both
      give the tab byte, and `ctrl-a` gives the byte 1 that a one-byte
      literal holding it gives too. */
  lemma Collisions()
    ensures KeyStrings(Tab).value[0] == KeyStrings(CtrlPrefix + Ascii("i")).value[1]
    ensures KeyStrings(CtrlPrefix + Ascii("a")).value[1] == KeyStrings([1]).value[0]
  {
    CtrlKey(105);
    CtrlKey(97);
  }

  // ---------------------------------------------------------------------
  // The compiled table
  // ---------------------------------------------------------------------

  /** The binding of `k` compiles, i.e. neither its value nor its literal
      panics. */
  predicate BindingOk(k: Bytes, v: Bytes) {
    ParseActionSpec(v).Ok? && KeyStrings(k).Ok?
  }

  /** The panic a failing binding raises: its value is parsed first. */
  function BindingPanic(k: Bytes, v: Bytes): Panic
    requires !BindingOk(k, v)
  {
    if ParseActionSpec(v).Err? then ParseActionSpec(v).error else KeyStrings(k).error
  }

  /** Key `k`, one of those in `done`, is bound in `keymap` and registers
      the byte string `s`. */
  predicate Produces(keymap: map<Bytes, Bytes>, done: set<Bytes>, k: Bytes, s: Bytes) {
    k in done && k in keymap && KeyStrings(k).Ok? && s in KeyStrings(k).value
  }

  /** `m` is a table compiled from the bindings of the keys in `done`:
      every string those keys register is in it, and each of its entries
      holds the action of some key that registers that string. */
  ghost predicate CompiledFrom(keymap: map<Bytes, Bytes>, done: set<Bytes>, m: map<Bytes, Action>) {
    && (forall k, s | Produces(keymap, done, k, s) :: s in m)
    && (forall s | s in m :: exists k :: Produces(keymap, done, k, s) && ParseActionSpec(keymap[k]) == Ok(m[s]))
  }

  ghost predicate IsCompilation(keymap: map<Bytes, Bytes>, m: map<Bytes, Action>) {
    CompiledFrom(keymap, keymap.Keys, m)
  }

  /** No byte string is registered by two different bound keys, so the
      iteration order cannot matter. */
  ghost predicate Unambiguous(keymap: map<Bytes, Bytes>) {
    forall k1, k2, s | Produces(keymap, keymap.Keys, k1, s) && Produces(keymap, keymap.Keys, k2, s) :: k1 == k2
  }

  /** Compiles the bindings, visiting the keys in an unspecified order as
      iteration over a Go map does.  The result is a panic exactly when
      some binding does not compile (which one is reported depends on the
      order); otherwise it is a compilation of all the bindings. */
  method FormatKeymap(keymap: map<Bytes, Bytes>) returns (r: Result<map<Bytes, Action>, Panic>)
    ensures r.Ok? <==> forall k | k in keymap :: BindingOk(k, keymap[k])
    ensures r.Err? ==> exists k | k in keymap :: !BindingOk(k, keymap[k]) && r.error == BindingPanic(k, keymap[k])
    ensures r.Ok? ==> IsCompilation(keymap, r.value)
  {
    var m: map<Bytes, Action> := map[];
    var done: set<Bytes> := {};
    while done != keymap.Keys
      invariant done <= keymap.Keys
      invariant forall k | k in done :: BindingOk(k, keymap[k])
      invariant CompiledFrom(keymap, done, m)
      decreases |keymap.Keys - done|
    {
      var k :| k in keymap.Keys - done;
      var v := keymap[k];
      var parsed := ParseActionSpec(v);
      if parsed.Err? {
        return Err(parsed.error);
      }
      var action := parsed.value;
      ghost var m0 := m;
      if |k| == 1 {
        m := m[k := action];
      } else if CtrlPrefix <= k && |k[5..]| == 1 {
        var code := k[5];
        m := m[CsiU(code) := action];
        if IsLowerLetter(code) {
          m := m[[ControlByte(code)] := action];
        }
      } else if k == Enter {
        m := m[[10] := action];
      } else if k == Tab {
        m := m[[9] := action];
      } else {
        return Err(UnknownKey(k));
      }
      CompileStep(keymap, done, m0, k, KeyStrings(k).value, m);
      done := done + {k};
    }
    r := Ok(m);
  }

  /** Adding the entries of one more key keeps the table a compilation of
      the keys visited so far. */
  lemma CompileStep(keymap: map<Bytes, Bytes>, done: set<Bytes>, m0: map<Bytes, Action>, k: Bytes,
                    ss: seq<Bytes>, m: map<Bytes, Action>)
    requires CompiledFrom(keymap, done, m0)
    requires k in keymap && BindingOk(k, keymap[k]) && KeyStrings(k) == Ok(ss)
    requires forall s :: s in m <==> s in m0 || s in ss
    requires forall s | s in ss :: m[s] == ParseActionSpec(keymap[k]).value
    requires forall s | s in m0 && s !in ss :: m[s] == m0[s]
    ensures CompiledFrom(keymap, done + {k}, m)
  {
    forall k', s | Produces(keymap, done + {k}, k', s) ensures s in m {
      if k' != k {
        assert Produces(keymap, done, k', s);
      }
    }
    forall s | s in m
      ensures exists k' :: Produces(keymap, done + {k}, k', s) && ParseActionSpec(keymap[k']) == Ok(m[s])
    {
      if s in ss {
        assert Produces(keymap, done + {k}, k, s);
      } else {
        var k' :| Produces(keymap, done, k', s) && ParseActionSpec(keymap[k']) == Ok(m0[s]);
        assert Produces(keymap, done + {k}, k', s);
      }
    }
  }

  /** In a table compiled from unambiguous bindings, every string a bound
      key registers looks up that key's action. */
  lemma Lookup(keymap: map<Bytes, Bytes>, m: map<Bytes, Action>, k: Bytes, s: Bytes)
    requires IsCompilation(keymap, m) && Unambiguous(keymap)
    requires k in keymap && KeyStrings(k).Ok? && s in KeyStrings(k).value
    ensures s in m && ParseActionSpec(keymap[k]) == Ok(m[s])
  {
    assert Produces(keymap, keymap.Keys, k, s);
    var k' :| Produces(keymap, keymap.Keys, k', s) && ParseActionSpec(keymap[k']) == Ok(m[s]);
  }

  /** A table holds nothing but the strings the bound keys register. */
  lemma OnlyRegistered(keymap: map<Bytes, Bytes>, m: map<Bytes, Action>, s: Bytes)
    requires IsCompilation(keymap, m)
    requires forall k | k in keymap && KeyStrings(k).Ok? :: s !in KeyStrings(k).value
    ensures s !in m
  {
  }

  /** `ctrl-c` bound to a spec: both its CSI-u sequence and, for a
      lower-case letter, its control byte look up the same action. */
  lemma CtrlLookup(keymap: map<Bytes, Bytes>, m: map<Bytes, Action>, c: byte)
    requires IsCompilation(keymap, m) && Unambiguous(keymap)
    requires CtrlPrefix + [c] in keymap && ParseActionSpec(keymap[CtrlPrefix + [c]]).Ok?
    ensures CsiU(c) in m && m[CsiU(c)] == ParseActionSpec(keymap[CtrlPrefix + [c]]).value
    ensures IsLowerLetter(c) ==> [ControlByte(c)] in m && m[[ControlByte(c)]] == m[CsiU(c)]
  {
    var k := CtrlPrefix + [c];
    CtrlKey(c);
    var ss := KeyStrings(k).value;
    assert ss[0] == CsiU(c) by { assert CtrlPrefix <= k && k[5] == c; }
    Lookup(keymap, m, k, ss[0]);
    if IsLowerLetter(c) {
      Lookup(keymap, m, k, ss[1]);
    }
  }

  /** `enter` is looked up by a newline, `tab` by a tab byte. */
  lemma EnterTabLookup(keymap: map<Bytes, Bytes>, m: map<Bytes, Action>)
    requires IsCompilation(keymap, m) && Unambiguous(keymap)
    ensures Enter in keymap && ParseActionSpec(keymap[Enter]).Ok? ==>
      [10] in m && Ok(m[[10]]) == ParseActionSpec(keymap[Enter])
    ensures Tab in keymap && ParseActionSpec(keymap[Tab]).Ok? ==>
      [9] in m && Ok(m[[9]]) == ParseActionSpec(keymap[Tab])
  {
    if Enter in keymap && ParseActionSpec(keymap[Enter]).Ok? {
      Lookup(keymap, m, Enter, [10]);
    }
    if Tab in keymap && ParseActionSpec(keymap[Tab]).Ok? {
      Lookup(keymap, m, Tab, [9]);
    }
  }
}
