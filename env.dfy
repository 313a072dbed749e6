/** The scope stack the interpreter drives through `EnvironmentManager`: one
    frame per active invocation, each frame a stack of block scopes. Only the
    operations the interpreter calls are modelled, with the behaviour its call
    sites rely on; the stack operations are pure functions on the frame
    sequence, and the class applies them in place. */
module Environments {
  import opened Syntax
  import opened Values

  type Frame = seq<Scope>

  /** The innermost scope of a frame that binds `name`. */
  function Where(scopes: Frame, name: string): (r: Option<nat>)
    ensures r.Some? ==> r.value < |scopes| && name in scopes[r.value] &&
                        forall j :: r.value < j < |scopes| ==> name !in scopes[j]
    ensures r.None? ==> forall j :: 0 <= j < |scopes| ==> name !in scopes[j]
  {
    if |scopes| == 0 then None
    else if name in scopes[|scopes| - 1] then Some(|scopes| - 1)
    else Where(scopes[..|scopes| - 1], name)
  }

  /** `get`: innermost-to-outermost search within one frame. */
  function Find(scopes: Frame, name: string): Option<Value>
  {
    match Where(scopes, name)
    case Some(k) => Some(scopes[k][name])
    case None => None
  }

  function Top(fs: seq<Frame>): Frame
    requires |fs| > 0
  {
    fs[|fs| - 1]
  }

  function WithTop(fs: seq<Frame>, f: Frame): seq<Frame>
    requires |fs| > 0
  {
    fs[..|fs| - 1] + [f]
  }

  /** `push`: a new frame with one empty scope. */
  function PushFrame(fs: seq<Frame>): seq<Frame>
  {
    fs + [[map[]]]
  }

  /** `block_nest`: a new empty scope in the current frame. */
  function Nest(fs: seq<Frame>): seq<Frame>
    requires |fs| > 0
  {
    WithTop(fs, Top(fs) + [map[]])
  }

  /** `block_unnest`: drop the innermost scope of the current frame. */
  function Unnest(fs: seq<Frame>): seq<Frame>
    requires |fs| > 0 && |Top(fs)| > 0
  {
    WithTop(fs, Top(fs)[..|Top(fs)| - 1])
  }

  /** The scope `create_new_symbol` works on: the innermost one, or the
      outermost one of the frame when `top` is requested. */
  function Target(f: Frame, top: bool): nat
    requires |f| > 0
  {
    if top then 0 else |f| - 1
  }

  /** Bind `name` to `c` in the target scope of the current frame. */
  function Declare(fs: seq<Frame>, name: string, c: Value, top: bool): seq<Frame>
    requires |fs| > 0 && |Top(fs)| > 0
  {
    var f := Top(fs);
    var k := Target(f, top);
    WithTop(fs, f[k := f[k][name := c]])
  }

  /** `set`: rebind `name` in the innermost scope of the current frame that
      binds it; an unbound name is left alone. */
  function Rebind(fs: seq<Frame>, name: string, c: Value): seq<Frame>
    requires |fs| > 0
  {
    var f := Top(fs);
    match Where(f, name)
    case Some(k) => WithTop(fs, f[k := f[k][name := c]])
    case None => fs
  }

  /** `import_mappings`: add bindings to the innermost scope of the current
      frame, the imported ones winning. */
  function Import(fs: seq<Frame>, m: Scope): seq<Frame>
    requires |fs| > 0 && |Top(fs)| > 0
  {
    var f := Top(fs);
    WithTop(fs, f[|f| - 1 := f[|f| - 1] + m])
  }

  // ---------------------------------------------------------------------
  // Properties of the scope discipline.

  /** Closing a block restores the frame exactly as it was before the block
      opened, whatever was declared inside. */
  lemma BlockLocalsVanish(fs: seq<Frame>, name: string, c: Value)
    requires |fs| > 0
    ensures |Top(Nest(fs))| > 0
    ensures Unnest(Declare(Nest(fs), name, c, false)) == fs
  {
    var f := Top(fs);
    var g := f + [map[]];
    assert Top(Nest(fs)) == g;
    var d := Declare(Nest(fs), name, c, false);
    assert Top(d) == g[|g| - 1 := map[name := c]];
    assert Top(d)[..|Top(d)| - 1] == f;
    assert fs[..|fs| - 1] + [f] == fs;
  }

  /** A nested block sees every name of its enclosing scopes until it binds
      the name itself. */
  lemma NestKeepsVisible(fs: seq<Frame>, name: string)
    requires |fs| > 0
    ensures Find(Top(Nest(fs)), name) == Find(Top(fs), name)
  {
    var f := Top(fs);
    var g := f + [map[]];
    assert Top(Nest(fs)) == g;
    assert g[..|g| - 1] == f;
  }

  /** A name just declared is found, and it hides every outer binding. */
  lemma DeclaredIsFound(fs: seq<Frame>, name: string, c: Value)
    requires |fs| > 0 && |Top(fs)| > 0
    ensures Find(Top(Declare(fs, name, c, false)), name) == Some(c)
  {
    var f := Top(fs);
    assert Top(Declare(fs, name, c, false)) == f[|f| - 1 := f[|f| - 1][name := c]];
  }

  /** Rebinding a visible name makes it denote the new cell and leaves every
      other name's binding alone. */
  lemma RebindFound(fs: seq<Frame>, name: string, c: Value, other: string)
    requires |fs| > 0 && Where(Top(fs), name).Some?
    ensures Find(Top(Rebind(fs, name, c)), name) == Some(c)
    ensures other != name ==> Find(Top(Rebind(fs, name, c)), other) == Find(Top(fs), other)
  {
    var f := Top(fs);
    var k := Where(f, name).value;
    var g := f[k := f[k][name := c]];
    assert Top(Rebind(fs, name, c)) == g;
    WhereUpdate(f, k, name, c, name);
    WhereUpdate(f, k, name, c, other);
  }

  lemma {:induction false} WhereUpdate(f: Frame, k: nat, name: string, c: Value, other: string)
    requires k < |f| && (name in f[k] || other != name)
    ensures Where(f[k := f[k][name := c]], other) == Where(f, other)
    decreases |f|
  {
    var g := f[k := f[k][name := c]];
    if |f| > 0 && k < |f| - 1 {
      assert g[..|g| - 1] == f[..|f| - 1][k := f[k][name := c]];
      WhereUpdate(f[..|f| - 1], k, name, c, other);
    } else if |f| > 0 {
      assert g[..|g| - 1] == f[..|f| - 1];
    }
  }

  /** The scopes of other frames and other names are untouched by `set`. */
  lemma RebindOnlyTop(fs: seq<Frame>, name: string, c: Value)
    requires |fs| > 0
    ensures |Rebind(fs, name, c)| == |fs|
    ensures Rebind(fs, name, c)[..|fs| - 1] == fs[..|fs| - 1]
  {
  }

  /** A call's frame never sees the caller's names: lookups cross no frame. */
  lemma NewFrameIsEmpty(fs: seq<Frame>, name: string)
    ensures Find(Top(PushFrame(fs)), name).None?
    ensures PushFrame(fs)[..|fs|] == fs
  {
    assert Top(PushFrame(fs)) == [map[]];
  }

  /** After importing, each imported name denotes its imported cell. */
  lemma ImportedAreFound(fs: seq<Frame>, m: Scope, name: string)
    requires |fs| > 0 && |Top(fs)| > 0 && name in m
    ensures Find(Top(Import(fs, m)), name) == Some(m[name])
  {
    var f := Top(fs);
    assert Top(Import(fs, m)) == f[|f| - 1 := f[|f| - 1] + m];
  }

  /** The innermost scope of a frame. */
  function Innermost(f: Frame): Scope
    requires |f| > 0
  {
    f[|f| - 1]
  }

  /** Setting a name just declared in the innermost scope replaces that
      declaration's cell. */
  lemma RedeclareInnermost(fs: seq<Frame>, name: string, c0: Value, c: Value)
    requires |fs| > 0 && |Top(fs)| > 0
    ensures Rebind(Declare(fs, name, c0, false), name, c) == Declare(fs, name, c, false)
  {
    var f := Top(fs);
    var k := |f| - 1;
    var g: Frame := f[k := f[k][name := c0]];
    var d0 := WithTop(fs, g);
    assert Declare(fs, name, c0, false) == d0;
    assert Top(d0) == g;
    assert Where(g, name) == Some(k);
    assert Rebind(d0, name, c) == WithTop(d0, g[k := g[k][name := c]]);
    var s0: Scope := f[k][name := c0];
    var s1: Scope := f[k][name := c];
    assert s0[name := c] == s1;
    assert g[k := g[k][name := c]] == f[k := f[k][name := c]];
    assert d0[..|d0| - 1] == fs[..|fs| - 1];
  }

  /** A declaration adds its name to the innermost scope and leaves the
      frame's depth, the other frames and the outer scopes alone. */
  lemma DeclareKeys(fs: seq<Frame>, name: string, c: Value)
    requires |fs| > 0 && |Top(fs)| > 0
    ensures |Declare(fs, name, c, false)| == |fs| && |Top(Declare(fs, name, c, false))| == |Top(fs)|
    ensures Innermost(Top(Declare(fs, name, c, false))).Keys == Innermost(Top(fs)).Keys + {name}
    ensures Innermost(Top(Declare(fs, name, c, false))) == Innermost(Top(fs))[name := c]
    ensures Declare(fs, name, c, false)[..|fs| - 1] == fs[..|fs| - 1]
    ensures Top(Declare(fs, name, c, false))[..|Top(fs)| - 1] == Top(fs)[..|Top(fs)| - 1]
  {
  }

  /** The names `names` declared in turn in the innermost scope, bound to
      the cells `cs`. */
  function DeclareAll(fs: seq<Frame>, names: seq<string>, cs: seq<Value>): seq<Frame>
    requires |fs| > 0 && |Top(fs)| > 0 && |names| == |cs|
    ensures |DeclareAll(fs, names, cs)| == |fs| && |Top(DeclareAll(fs, names, cs))| == |Top(fs)|
    decreases |names|
  {
    if names == [] then fs
    else
      var n := |names| - 1;
      var before := DeclareAll(fs, names[..n], cs[..n]);
      Declare(before, names[n], cs[n], false)
  }

  /** Declaring one more name after `names[..k]`. */
  lemma DeclareAllSnoc(fs: seq<Frame>, names: seq<string>, cs: seq<Value>, k: nat, c: Value)
    requires |fs| > 0 && |Top(fs)| > 0 && k < |names| && |cs| == k
    ensures DeclareAll(fs, names[..k + 1], cs + [c]) == Declare(DeclareAll(fs, names[..k], cs), names[k], c, false)
  {
    assert names[..k + 1][..k] == names[..k] && (cs + [c])[..k] == cs;
  }

  /** Declaring names touches only the innermost scope of the current
      frame. */
  lemma {:induction false} DeclareAllFrames(fs: seq<Frame>, names: seq<string>, cs: seq<Value>)
    requires |fs| > 0 && |Top(fs)| > 0 && |names| == |cs|
    ensures var after := DeclareAll(fs, names, cs);
            after[..|fs| - 1] == fs[..|fs| - 1] &&
            Top(after)[..|Top(fs)| - 1] == Top(fs)[..|Top(fs)| - 1]
    decreases |names|
  {
    if names != [] {
      var n := |names| - 1;
      DeclareAllFrames(fs, names[..n], cs[..n]);
      DeclareKeys(DeclareAll(fs, names[..n], cs[..n]), names[n], cs[n]);
    }
  }

  /** Declaring names adds exactly those names to the innermost scope. */
  lemma {:induction false} DeclareAllKeys(fs: seq<Frame>, names: seq<string>, cs: seq<Value>)
    requires |fs| > 0 && |Top(fs)| > 0 && |names| == |cs|
    ensures Innermost(Top(DeclareAll(fs, names, cs))).Keys == Innermost(Top(fs)).Keys + (set k | 0 <= k < |names| :: names[k])
    decreases |names|
  {
    if names != [] {
      var n := |names| - 1;
      DeclareAllKeys(fs, names[..n], cs[..n]);
      DeclareKeys(DeclareAll(fs, names[..n], cs[..n]), names[n], cs[n]);
      assert (set k | 0 <= k < |names| :: names[k]) == (set k | 0 <= k < n :: names[..n][k]) + {names[n]};
    }
  }

  /** Declaring names keeps the innermost binding of every other name, and
      binds each of distinct names to its own cell. */
  lemma {:induction false} DeclareAllCells(fs: seq<Frame>, names: seq<string>, cs: seq<Value>)
    requires |fs| > 0 && |Top(fs)| > 0 && |names| == |cs|
    requires forall i, j :: 0 <= i < j < |names| ==> names[i] != names[j]
    ensures var inner := Innermost(Top(DeclareAll(fs, names, cs)));
            (forall k :: 0 <= k < |names| ==> names[k] in inner && inner[names[k]] == cs[k]) &&
            (forall x :: x in Innermost(Top(fs)) && x !in names ==> x in inner && inner[x] == Innermost(Top(fs))[x])
    decreases |names|
  {
    if names != [] {
      var n := |names| - 1;
      var before := DeclareAll(fs, names[..n], cs[..n]);
      DeclareAllCells(fs, names[..n], cs[..n]);
      DeclareKeys(before, names[n], cs[n]);
      var innerB, innerA := Innermost(Top(before)), Innermost(Top(DeclareAll(fs, names, cs)));
      assert innerA == innerB[names[n] := cs[n]];
      forall k | 0 <= k < |names|
        ensures names[k] in innerA && innerA[names[k]] == cs[k]
      {
        if k < n {
          assert names[..n][k] == names[k] && cs[..n][k] == cs[k];
        }
      }
      forall x | x in Innermost(Top(fs)) && x !in names
        ensures x in innerA && innerA[x] == Innermost(Top(fs))[x]
      {
        assert x !in names[..n];
      }
    }
  }

  /** Declaring distinct names touches only the innermost scope of the
      current frame, where each name then denotes its own cell and every
      earlier binding of another name is kept. */
  lemma DeclareAllScope(fs: seq<Frame>, names: seq<string>, cs: seq<Value>)
    requires |fs| > 0 && |Top(fs)| > 0 && |names| == |cs|
    requires forall i, j :: 0 <= i < j < |names| ==> names[i] != names[j]
    ensures var after := DeclareAll(fs, names, cs);
            after[..|fs| - 1] == fs[..|fs| - 1] &&
            Top(after)[..|Top(fs)| - 1] == Top(fs)[..|Top(fs)| - 1] &&
            Innermost(Top(after)).Keys == Innermost(Top(fs)).Keys + (set k | 0 <= k < |names| :: names[k]) &&
            (forall k :: 0 <= k < |names| ==> Innermost(Top(after))[names[k]] == cs[k]) &&
            (forall x :: x in Innermost(Top(fs)) && x !in names ==> Innermost(Top(after))[x] == Innermost(Top(fs))[x])
  {
    DeclareAllFrames(fs, names, cs);
    DeclareAllKeys(fs, names, cs);
    DeclareAllCells(fs, names, cs);
  }

  /** `create_new_symbol(name, True)` on the result variable: bind it in the
      outermost scope unless that scope already has it. */
  function EnsureOutermost(fs: seq<Frame>, name: string, c: Value): seq<Frame>
    requires |fs| > 0 && |Top(fs)| > 0
  {
    if name in Top(fs)[0] then fs else Declare(fs, name, c, true)
  }

  /** After the result variable is made sure of and then set, it denotes the
      new cell; when no nested scope shadows it, that binding lives in the
      outermost scope, so closing nested blocks cannot lose it. */
  lemma ResultBinding(fs: seq<Frame>, name: string, c0: Value, c: Value)
    requires |fs| > 0 && |Top(fs)| > 0
    ensures Where(Top(EnsureOutermost(fs, name, c0)), name).Some?
    ensures Find(Top(Rebind(EnsureOutermost(fs, name, c0), name, c)), name) == Some(c)
    ensures (forall j :: 0 < j < |Top(fs)| ==> name !in Top(fs)[j]) ==>
              name in Top(Rebind(EnsureOutermost(fs, name, c0), name, c))[0] &&
              Top(Rebind(EnsureOutermost(fs, name, c0), name, c))[0][name] == c
  {
    var e := EnsureOutermost(fs, name, c0);
    var f := Top(fs);
    assert Top(e) == (if name in f[0] then f else f[0 := f[0][name := c0]]);
    assert |Top(e)| == |f| && name in Top(e)[0];
    assert Where(Top(e), name).Some?;
    RebindFound(e, name, c, name);
    if forall j :: 0 < j < |f| ==> name !in f[j] {
      assert forall j :: 0 < j < |Top(e)| ==> name !in Top(e)[j];
      assert Where(Top(e), name) == Some(0);
    }
  }

  /** Passing a result back keeps the number of frames. */
  lemma ResultKeepsDepth(fs: seq<Frame>, name: string, slot: Value, c: Value)
    requires |fs| > 0 && |Top(fs)| > 0
    ensures |Rebind(EnsureOutermost(fs, name, slot), name, c)| == |fs|
  {
    var e := EnsureOutermost(fs, name, slot);
    assert |e| == |fs|;
  }

  /** Passing a result back changes only the current frame, and in it only
      the result variable, which then denotes the new cell. */
  lemma ResultSetOnly(fs: seq<Frame>, name: string, slot: Value, c: Value, other: string)
    requires |fs| > 0 && |Top(fs)| > 0
    ensures var after := Rebind(EnsureOutermost(fs, name, slot), name, c);
            |after| == |fs| && after[..|after| - 1] == fs[..|fs| - 1] &&
            |Top(after)| == |Top(fs)| &&
            Find(Top(after), name) == Some(c) &&
            (other != name ==> Find(Top(after), other) == Find(Top(fs), other))
  {
    var e := EnsureOutermost(fs, name, slot);
    var f := Top(fs);
    assert Top(e) == (if name in f[0] then f else f[0 := f[0][name := slot]]);
    ResultBinding(fs, name, slot, c);
    if other != name {
      if name !in f[0] {
        WhereUpdate(f, 0, name, slot, other);
      }
      RebindFound(e, name, c, other);
    }
  }

  /** The bindings of a frame flattened into one scope: `_lambda` lists
      them scope by scope, outermost first, and the dictionary the call
      builds from that list keeps the last entry per name. */
  function Merge(scopes: Frame): Scope
  {
    if |scopes| == 0 then map[] else Merge(scopes[..|scopes| - 1]) + scopes[|scopes| - 1]
  }

  /** The flattened captures bind exactly the names visible in the frame,
      each to the cell a lookup there finds: an inner binding hides an
      outer one. */
  lemma {:induction false} MergeIsLookup(scopes: Frame, name: string)
    ensures name in Merge(scopes) <==> Find(scopes, name).Some?
    ensures name in Merge(scopes) ==> Merge(scopes)[name] == Find(scopes, name).value
    decreases |scopes|
  {
    if |scopes| > 0 {
      MergeIsLookup(scopes[..|scopes| - 1], name);
    }
  }

  lemma {:induction false} MergeIn(scopes: Frame, cells: set<Value>)
    requires ScopesIn(scopes, cells)
    ensures Merge(scopes).Values <= cells
    decreases |scopes|
  {
    if |scopes| > 0 {
      MergeIn(scopes[..|scopes| - 1], cells);
      var m := Merge(scopes[..|scopes| - 1]);
      assert (m + scopes[|scopes| - 1]).Values <= m.Values + scopes[|scopes| - 1].Values;
    }
  }

  // ---------------------------------------------------------------------
  // Every cell bound in a frame stack belongs to a given set of cells.

  ghost predicate FramesIn(fs: seq<Frame>, cells: set<Value>)
  {
    forall i :: 0 <= i < |fs| ==> ScopesIn(fs[i], cells)
  }

  lemma FramesInMono(fs: seq<Frame>, cells: set<Value>, more: set<Value>)
    requires FramesIn(fs, cells) && cells <= more
    ensures FramesIn(fs, more)
  {
    forall i | 0 <= i < |fs| {
      ScopesInMono(fs[i], cells, more);
    }
  }

  /** Pushing or popping a frame or a scope keeps the environment inside
      the heap. */
  lemma FramesInShape(fs: seq<Frame>, cells: set<Value>)
    requires FramesIn(fs, cells)
    ensures FramesIn(PushFrame(fs), cells)
    ensures |fs| > 0 ==> FramesIn(fs[..|fs| - 1], cells)
    ensures |fs| > 0 ==> FramesIn(Nest(fs), cells)
    ensures |fs| > 0 && |Top(fs)| > 0 ==> FramesIn(Unnest(fs), cells)
  {
    if |fs| > 0 {
      assert ScopesIn(Top(fs), cells);
    }
  }

  /** Declaring a name bound to a cell of the heap keeps the frames in it. */
  lemma FramesInDeclare(fs: seq<Frame>, cells: set<Value>, name: string, c: Value, top: bool)
    requires FramesIn(fs, cells) && |fs| > 0 && |Top(fs)| > 0 && c in cells
    ensures FramesIn(Declare(fs, name, c, top), cells)
  {
    var f := Top(fs);
    assert ScopesIn(f, cells);
    var k := Target(f, top);
    assert f[k][name := c].Values <= f[k].Values + {c};
  }

  /** Rebinding a name to a cell of the heap keeps the frames in it. */
  lemma FramesInRebind(fs: seq<Frame>, cells: set<Value>, name: string, c: Value)
    requires FramesIn(fs, cells) && |fs| > 0 && c in cells
    ensures FramesIn(Rebind(fs, name, c), cells)
  {
    var f := Top(fs);
    assert ScopesIn(f, cells);
    match Where(f, name)
    case Some(k) =>
      assert f[k][name := c].Values <= f[k].Values + {c};
    case None =>
  }

  /** Entering a function: a pushed frame that imports `m` holds exactly
      the one scope `m`. */
  lemma EnterFrame(fs: seq<Frame>, cells: set<Value>, m: Scope)
    requires FramesIn(fs, cells) && m.Values <= cells
    ensures Import(PushFrame(fs), m) == fs + [[m]]
    ensures FramesIn(fs + [[m]], cells)
  {
    var p := PushFrame(fs);
    assert Top(p) == [map[]];
    assert map[] + m == m;
    assert Top(p)[0 := Top(p)[0] + m] == [m];
    assert p[..|p| - 1] == fs;
    assert ScopesIn([m], cells);
  }

  /** A cell found by a lookup belongs to the frame's cells. */
  lemma FoundIn(f: Frame, name: string, cells: set<Value>)
    requires ScopesIn(f, cells)
    ensures Find(f, name).Some? ==> Find(f, name).value in cells
  {
    match Where(f, name)
    case Some(k) =>
      assert f[k][name] in f[k].Values;
    case None =>
  }

  // ---------------------------------------------------------------------
  // The manager object.

  class EnvManager {
    var frames: seq<Frame>

    /** The manager starts with the main frame, holding one empty scope. */
    constructor ()
      ensures frames == [[map[]]]
    {
      frames := [[map[]]];
    }

    function Get(name: string): Option<Value>
      reads this
      requires |frames| > 0
    {
      Find(Top(frames), name)
    }

    method Push()
      modifies this
      ensures frames == PushFrame(old(frames))
    {
      frames := frames + [[map[]]];
    }

    /** `pop`; `ok` is false when there is no frame to drop. */
    method Pop() returns (ok: bool)
      modifies this
      ensures ok <==> |old(frames)| > 0
      ensures ok ==> frames == old(frames)[..|old(frames)| - 1]
      ensures !ok ==> frames == old(frames)
    {
      ok := |frames| > 0;
      if ok {
        frames := frames[..|frames| - 1];
      }
    }

    method BlockNest()
      requires |frames| > 0
      modifies this
      ensures frames == Nest(old(frames))
    {
      var f := frames[|frames| - 1];
      frames := frames[..|frames| - 1] + [f + [map[]]];
    }

    /** `block_unnest`; `ok` is false when the frame has no scope left. */
    method BlockUnnest() returns (ok: bool)
      requires |frames| > 0
      modifies this
      ensures ok <==> |Top(old(frames))| > 0
      ensures ok ==> frames == Unnest(old(frames))
      ensures !ok ==> frames == old(frames)
    {
      var f := frames[|frames| - 1];
      ok := |f| > 0;
      if ok {
        frames := frames[..|frames| - 1] + [f[..|f| - 1]];
      }
    }

    /** `create_new_symbol`: bind `name` to a fresh void cell in the target
        scope unless that scope already binds it. `Crash` when the frame has
        no scope. */
    method CreateNewSymbol(name: string, top: bool) returns (r: Res<bool>, c: Value)
      requires |frames| > 0
      modifies this
      ensures r.Crash? <==> |Top(old(frames))| == 0
      ensures r.Fail? == false
      ensures r.Ok? ==> (r.value <==> name !in Top(old(frames))[Target(Top(old(frames)), top)])
      ensures fresh(c) && c.Contents() == Content(VOID, NoneV)
      ensures r == Ok(true) ==> frames == Declare(old(frames), name, c, top)
      ensures r != Ok(true) ==> frames == old(frames)
    {
      c := new Value(VOID, NoneV);
      var f := frames[|frames| - 1];
      if |f| == 0 {
        return Crash, c;
      }
      var k := if top then 0 else |f| - 1;
      if name in f[k] {
        return Ok(false), c;
      }
      frames := frames[..|frames| - 1] + [f[k := f[k][name := c]]];
      r := Ok(true);
    }

    method Set(name: string, c: Value)
      requires |frames| > 0
      modifies this
      ensures frames == Rebind(old(frames), name, c)
    {
      var f := frames[|frames| - 1];
      var w := Where(f, name);
      if w.Some? {
        var k := w.value;
        frames := frames[..|frames| - 1] + [f[k := f[k][name := c]]];
      }
    }

    method ImportMappings(m: Scope)
      requires |frames| > 0 && |Top(frames)| > 0
      modifies this
      ensures frames == Import(old(frames), m)
    {
      var f := frames[|frames| - 1];
      frames := frames[..|frames| - 1] + [f[|f| - 1 := f[|f| - 1] + m]];
    }
  }
}
