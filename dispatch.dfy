/** Input dispatch: the key-down registry, the held-key (repeat) bindings,
    click hit-testing, and the callbacks one frame's input events fire. */
module Dispatch {
  import opened Common
  import opened Geometry

  // ------------------------------------------------------- key-down lists

  /** The commands fired by one key-down event for `k`, in registration
      order; none for a key nobody registered. */
  function KeyTrace(keydown: map<Key, seq<Command>>, k: Key): seq<Event> {
    if k in keydown then seq(|keydown[k]|, i requires 0 <= i < |keydown[k]| => KeyPressed(k, keydown[k][i]))
    else []
  }

  /** `Click(key, command)`: the key's list is created on first use and the
      command appended, so it fires after every earlier command of that key;
      no other key's list changes. */
  function AddKeyCommand(keydown: map<Key, seq<Command>>, k: Key, c: Command): (r: map<Key, seq<Command>>)
    ensures r.Keys == keydown.Keys + {k}
    ensures forall k' :: k' in keydown && k' != k ==> r[k'] == keydown[k']
    ensures KeyTrace(r, k) == KeyTrace(keydown, k) + [KeyPressed(k, c)]
  {
    var cmds := if k in keydown then keydown[k] else [];
    keydown[k := cmds + [c]]
  }

  // ----------------------------------------------------- held-key bindings

  /** A held-key binding; the list keeps the keys in first-registration
      order, as Python's dict iteration does. */
  datatype Binding = Binding(key: Key, cmd: Command)

  ghost predicate DistinctKeys(held: seq<Binding>) {
    forall a, b :: 0 <= a < b < |held| ==> held[a].key != held[b].key
  }

  ghost predicate HasKey(held: seq<Binding>, k: Key) {
    exists j :: 0 <= j < |held| && held[j].key == k
  }

  /** The command bound to `k`, if any. */
  function Lookup(held: seq<Binding>, k: Key): (r: Option<Command>)
    ensures r.Some? <==> HasKey(held, k)
    ensures r.Some? ==> exists j :: 0 <= j < |held| && held[j] == Binding(k, r.value)
  {
    if held == [] then None
    else if held[0].key == k then Some(held[0].cmd)
    else
      var r := Lookup(held[1..], k);
      assert HasKey(held[1..], k) ==> HasKey(held, k) by {
        if HasKey(held[1..], k) {
          var j :| 0 <= j < |held[1..]| && held[1..][j].key == k;
          assert held[j + 1].key == k;
        }
      }
      assert r.Some? ==> exists j :: 0 <= j < |held| && held[j] == Binding(k, r.value) by {
        if r.Some? {
          var j :| 0 <= j < |held[1..]| && held[1..][j] == Binding(k, r.value);
          assert held[j + 1] == Binding(k, r.value);
        }
      }
      r
  }

  /** `_held_keys[key] = command` on the ordered bindings. */
  function Bind(held: seq<Binding>, k: Key, c: Command): (r: seq<Binding>)
    decreases |held|
  {
    if held == [] then [Binding(k, c)]
    else if held[0].key == k then [Binding(k, c)] + held[1..]
    else [held[0]] + Bind(held[1..], k, c)
  }

  /** After binding, `k` maps to the new command and every other key keeps
      its command. */
  lemma {:induction false} BindLookup(held: seq<Binding>, k: Key, c: Command, other: Key)
    requires other != k
    ensures Lookup(Bind(held, k, c), k) == Some(c)
    ensures Lookup(Bind(held, k, c), other) == Lookup(held, other)
    decreases |held|
  {
    if held != [] && held[0].key != k {
      BindLookup(held[1..], k, c, other);
      assert Bind(held, k, c)[1..] == Bind(held[1..], k, c);
    }
  }

  /** A bound key is overwritten in place, keeping every key's position; a
      new key is appended at the end. */
  lemma {:induction false} BindPlacement(held: seq<Binding>, k: Key, c: Command)
    ensures var r := Bind(held, k, c);
      && (HasKey(held, k) ==> |r| == |held| && forall j :: 0 <= j < |held| ==> r[j].key == held[j].key)
      && (!HasKey(held, k) ==> r == held + [Binding(k, c)])
    decreases |held|
  {
    if held != [] && held[0].key != k {
      BindPlacement(held[1..], k, c);
      assert HasKey(held, k) ==> HasKey(held[1..], k) by {
        if HasKey(held, k) {
          var j :| 0 <= j < |held| && held[j].key == k;
          assert held[1..][j - 1].key == k;
        }
      }
      assert !HasKey(held, k) ==> !HasKey(held[1..], k) by {
        if HasKey(held[1..], k) {
          var j :| 0 <= j < |held[1..]| && held[1..][j].key == k;
          assert held[j + 1].key == k;
        }
      }
    }
  }

  /** Binding keeps the keys distinct. */
  lemma BindDistinct(held: seq<Binding>, k: Key, c: Command)
    requires DistinctKeys(held)
    ensures DistinctKeys(Bind(held, k, c))
  {
    var r := Bind(held, k, c);
    BindPlacement(held, k, c);
    if !HasKey(held, k) {
      forall a, b | 0 <= a < b < |r| ensures r[a].key != r[b].key {
        if b == |held| {
          assert held[a].key == r[a].key;
        }
      }
    }
  }

  /** The held-key commands fired for the first `n` bindings. */
  function HeldTrace(held: seq<Binding>, n: nat, pressed: set<Key>): seq<Event>
    requires n <= |held|
    decreases n
  {
    if n == 0 then []
    else HeldTrace(held, n - 1, pressed) +
         (if held[n - 1].key in pressed then [KeyHeld(held[n - 1].key, held[n - 1].cmd)] else [])
  }

  /** `_update_held_keys` fires exactly the bound commands whose keys are
      down, one call per key, in binding order. */
  lemma {:induction false} HeldTraceExact(held: seq<Binding>, n: nat, pressed: set<Key>)
    requires n <= |held|
    ensures var t := HeldTrace(held, n, pressed);
      && (forall e :: e in t ==>
            e.KeyHeld? && e.key in pressed && exists j :: 0 <= j < n && held[j] == Binding(e.key, e.cmd))
      && (forall j :: 0 <= j < n && held[j].key in pressed ==> KeyHeld(held[j].key, held[j].cmd) in t)
      && (DistinctKeys(held) ==>
            forall a, b :: 0 <= a < b < |t| && t[a].KeyHeld? && t[b].KeyHeld? ==> t[a].key != t[b].key)
      && (DistinctKeys(held) ==>
            forall a, b, ia, ib ::
              (0 <= a < b < |t| && t[a].KeyHeld? && t[b].KeyHeld? && 0 <= ia < |held| && 0 <= ib < |held| &&
               held[ia].key == t[a].key && held[ib].key == t[b].key) ==> ia < ib)
    decreases n, 1
  {
    if DistinctKeys(held) {
      HeldTraceOrdered(held, n, pressed);
    }
    if n > 0 {
      HeldTraceExact(held, n - 1, pressed);
      var t0 := HeldTrace(held, n - 1, pressed);
      var t := HeldTrace(held, n, pressed);
      forall e | e in t
        ensures e.KeyHeld? && e.key in pressed && exists j :: 0 <= j < n && held[j] == Binding(e.key, e.cmd)
      {
        if e in t0 {
          var j :| 0 <= j < n - 1 && held[j] == Binding(e.key, e.cmd);
        } else {
          assert held[n - 1] == Binding(e.key, e.cmd);
        }
      }
      if DistinctKeys(held) && held[n - 1].key in pressed {
        forall a | 0 <= a < |t0| ensures t0[a].key != held[n - 1].key {
          assert t0[a] in t0;
          var j :| 0 <= j < n - 1 && held[j] == Binding(t0[a].key, t0[a].cmd);
        }
      }
    }
  }

  /** With distinct keys, the held-key events come in binding order: the
      binding that fired an earlier event sits earlier in `held`. */
  lemma {:induction false} HeldTraceOrdered(held: seq<Binding>, n: nat, pressed: set<Key>)
    requires n <= |held| && DistinctKeys(held)
    ensures var t := HeldTrace(held, n, pressed);
      forall a, b, ia, ib ::
        (0 <= a < b < |t| && t[a].KeyHeld? && t[b].KeyHeld? && 0 <= ia < |held| && 0 <= ib < |held| &&
         held[ia].key == t[a].key && held[ib].key == t[b].key) ==> ia < ib
    decreases n, 0
  {
    if n > 0 {
      HeldTraceExact(held, n - 1, pressed);
      var t0 := HeldTrace(held, n - 1, pressed);
      var t := HeldTrace(held, n, pressed);
      if held[n - 1].key in pressed {
        assert t == t0 + [KeyHeld(held[n - 1].key, held[n - 1].cmd)];
        forall a, b, ia, ib |
            0 <= a < b < |t| && t[a].KeyHeld? && t[b].KeyHeld? && 0 <= ia < |held| && 0 <= ib < |held| &&
            held[ia].key == t[a].key && held[ib].key == t[b].key
          ensures ia < ib
        {
          assert t[a] == t0[a] && t0[a] in t0;
          var j :| 0 <= j < n - 1 && held[j] == Binding(t0[a].key, t0[a].cmd);
          assert ia == j;
          if b == |t0| {
            assert ib == n - 1;
          } else {
            assert t[b] == t0[b];
          }
        }
      }
    }
  }

  /** With distinct keys, a key's command fires exactly when the key is down
      and that command is the one bound to it. */
  lemma HeldFiresBound(held: seq<Binding>, pressed: set<Key>, k: Key, c: Command)
    requires DistinctKeys(held)
    ensures KeyHeld(k, c) in HeldTrace(held, |held|, pressed) <==> k in pressed && Lookup(held, k) == Some(c)
  {
    HeldTraceExact(held, |held|, pressed);
    if Lookup(held, k) == Some(c) {
      var j :| 0 <= j < |held| && held[j] == Binding(k, c);
    }
    if KeyHeld(k, c) in HeldTrace(held, |held|, pressed) {
      var j :| 0 <= j < |held| && held[j] == Binding(k, c);
      LookupFirst(held, j);
    }
  }

  /** With distinct keys, the binding at position `j` is the one found. */
  lemma {:induction false} LookupFirst(held: seq<Binding>, j: nat)
    requires DistinctKeys(held) && j < |held|
    ensures Lookup(held, held[j].key) == Some(held[j].cmd)
    decreases j
  {
    if j > 0 {
      assert DistinctKeys(held[1..]);
      assert held[1..][j - 1] == held[j];
      LookupFirst(held[1..], j - 1);
    }
  }

  // ----------------------------------------------------------------- clicks

  /** The `onclick` callbacks fired by a click at (px, py), over the first
      `n` blocks. */
  function ClickTrace(blocks: seq<Block>, n: nat, px: int, py: int): seq<Event>
    requires n <= |blocks|
    decreases n
  {
    if n == 0 then []
    else ClickTrace(blocks, n - 1, px, py) +
         (if ContainsPoint(blocks[n - 1].rect, px, py) && blocks[n - 1].onClick.Some? then [Clicked(n - 1)] else [])
  }

  /** A click fires the `onclick` of every block that contains the point and
      has one, each once, in list order, and nothing else. */
  lemma {:induction false} ClickTraceExact(blocks: seq<Block>, n: nat, px: int, py: int)
    requires n <= |blocks|
    ensures var t := ClickTrace(blocks, n, px, py);
      && (forall e :: e in t ==>
            e.Clicked? && e.block < n && ContainsPoint(blocks[e.block].rect, px, py) && blocks[e.block].onClick.Some?)
      && (forall k :: 0 <= k < n && ContainsPoint(blocks[k].rect, px, py) && blocks[k].onClick.Some? ==>
            Clicked(k) in t)
      && (forall a, b :: 0 <= a < b < |t| && t[a].Clicked? && t[b].Clicked? ==> t[a].block < t[b].block)
    decreases n
  {
    if n > 0 {
      ClickTraceExact(blocks, n - 1, px, py);
      var t0 := ClickTrace(blocks, n - 1, px, py);
      forall a | 0 <= a < |t0| ensures t0[a].Clicked? && t0[a].block < n - 1 {
        assert t0[a] in t0;
      }
    }
  }

  // -------------------------------------------------------- input events

  /** The events the frame loop reacts to; `MouseDown` carries the pointer
      position read when the event is handled. */
  datatype Input = Quit | MouseDown(px: int, py: int) | KeyDown(key: Key) | OtherInput

  /** The callbacks one input event fires. */
  function EventTrace(blocks: seq<Block>, keydown: map<Key, seq<Command>>, e: Input): seq<Event> {
    match e
    case MouseDown(px, py) => ClickTrace(blocks, |blocks|, px, py)
    case KeyDown(k) => KeyTrace(keydown, k)
    case _ => []
  }

  /** The callbacks the first `n` input events fire, event by event. */
  function DispatchTrace(blocks: seq<Block>, keydown: map<Key, seq<Command>>, events: seq<Input>, n: nat): seq<Event>
    requires n <= |events|
    decreases n
  {
    if n == 0 then []
    else DispatchTrace(blocks, keydown, events, n - 1) + EventTrace(blocks, keydown, events[n - 1])
  }
}
