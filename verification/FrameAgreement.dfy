/** How the function-scoped environment of a SEP and the block frames of its C++
    function agree on the names that are visible in C++. */
module FrameAgreement {
  import opened Ast
  import opened TypeSpecs
  import opened Trees
  import opened StoreSpec
  import opened Semantics
  import opened Cpp
  import opened Firmware

  ghost predicate NoShadowing(frames: Frames) {
    forall i, j | 0 <= i < j < |frames| :: frames[i].Keys !! frames[j].Keys
  }

  /** Every visible name has its source value in C++; nothing else is declared there; and no
      block hides a name of an outer one. A frozen name, which the program does not assign,
      may be constant in C++ only. */
  ghost predicate Agrees(visible: set<string>, frozen: set<string>, env: Env, frames: Frames) {
    && frames != []
    && NoShadowing(frames)
    && (forall x | x in visible :: IsIdentifier(x) && VisibleAgrees(frozen, env, frames, x))
    && (forall i, n | 0 <= i < |frames| && n in frames[i] :: IsNameOf(visible, n))
  }

  ghost predicate IsNameOf(visible: set<string>, name: string) {
    exists x | x in visible :: name == VariableName(x)
  }

  ghost predicate VisibleAgrees(frozen: set<string>, env: Env, frames: Frames, x: string) {
    && x in env
    && IsBasic(env[x].value)
    && env[x].declaredType == TypeName(env[x].value)
    && var cell := Find(frames, VariableName(x));
       cell.Some? && cell.value.value == env[x].value && (x in frozen || cell.value.constant == env[x].constant)
  }

  /** The variable holds a value that C++ has as well, and has its type. */
  ghost predicate Holds(v: Variable, value: Value) {
    IsBasic(value) && v.value == value && v.declaredType == TypeName(value)
  }

  /** Assigning such a value changes one variable, which holds it then. */
  lemma BasicAssignment(env: Env, x: string, value: Value)
    requires IsBasic(value) && AssignIn(env, x, value).Ok?
    ensures var after := AssignIn(env, x, value).value;
            x in after && after == env[x := after[x]] && Holds(after[x], value) && !after[x].constant
    ensures x in env ==> !env[x].constant && env[x].declaredType == TypeName(value)
  {
  }

  /** Blocks may add names to the innermost frame only. */
  ghost predicate Grows(before: Frames, after: Frames) {
    && |before| == |after| > 0
    && (forall i | 0 <= i < |before| - 1 :: before[i].Keys == after[i].Keys)
    && before[|before| - 1].Keys <= after[|before| - 1].Keys
  }

  lemma GrowsTransitive(a: Frames, b: Frames, c: Frames)
    requires Grows(a, b) && Grows(b, c)
    ensures Grows(a, c)
  {
  }

  lemma {:induction false} FindIffDeclared(frames: Frames, name: string)
    ensures Find(frames, name).Some? <==> exists i | 0 <= i < |frames| :: name in frames[i]
  {
    if frames != [] {
      FindIffDeclared(frames[..|frames| - 1], name);
      if i :| 0 <= i < |frames| - 1 && name in frames[i] {
        assert name in frames[..|frames| - 1][i];
      }
    }
  }

  lemma {:induction false} UpdateChangesOneCell(frames: Frames, name: string, value: Value)
    requires Find(frames, name).Some? && !Find(frames, name).value.constant
    ensures var updated := Update(frames, name, value);
            && updated.Some? && |updated.value| == |frames|
            && (forall i | 0 <= i < |frames| :: updated.value[i].Keys == frames[i].Keys)
            && Find(updated.value, name) == Some(Cell(value, false))
            && forall other | other != name :: Find(updated.value, other) == Find(frames, other)
  {
    var last := |frames| - 1;
    if name in frames[last] {
      assert frames[last := frames[last][name := Cell(value, false)]][..last] == frames[..last];
    } else {
      UpdateChangesOneCell(frames[..last], name, value);
      var outer := Update(frames[..last], name, value).value;
      assert (outer + [frames[last]])[..last] == outer;
    }
  }

  lemma DeclareAddsOneCell(frames: Frames, name: string, cell: Cell)
    requires frames != [] && Find(frames, name).None?
    ensures var declared := Declare(frames, name, cell);
            && declared.Some? && Grows(frames, declared.value)
            && declared.value == frames[|frames| - 1 := frames[|frames| - 1][name := cell]]
            && Find(declared.value, name) == Some(cell)
            && forall other | other != name :: Find(declared.value, other) == Find(frames, other)
  {
    var last := |frames| - 1;
    assert Declare(frames, name, cell).value[..last] == frames[..last];
  }

  /** A declaration in C++ matches a definition in the source. */
  lemma AgreesAfterDeclare(visible: set<string>, frozen: set<string>, env: Env, env': Env, frames: Frames, x: string,
                           cell: Cell)
    requires Agrees(visible, frozen, env, frames) && x !in visible && IsIdentifier(x)
    requires x in env' && env' == env[x := env'[x]] && Holds(env'[x], cell.value) && env'[x].constant == cell.constant
    ensures var declared := Declare(frames, VariableName(x), cell);
            declared.Some? && Grows(frames, declared.value) && Agrees(visible + {x}, frozen, env', declared.value)
  {
    hide VariableName;
    var name := VariableName(x);
    NotVisibleNotFound(visible, frozen, env, frames, x);
    FindIffDeclared(frames, name);
    DeclareAddsOneCell(frames, name, cell);
    var after := Declare(frames, name, cell).value;
    forall y | y in visible + {x}
      ensures IsIdentifier(y) && VisibleAgrees(frozen, env', after, y)
    {
      if y != x {
        assert VisibleAgrees(frozen, env, frames, y);
        NamesAreInjective(x, y);
      }
    }
    forall i, n | 0 <= i < |after| && n in after[i]
      ensures IsNameOf(visible + {x}, n)
    {
      if n == name {
        assert x in visible + {x};
      } else {
        assert n in frames[i];
        assert IsNameOf(visible, n);
        var y :| y in visible && n == VariableName(y);
        assert y in visible + {x};
      }
    }
  }

  lemma NotVisibleNotFound(visible: set<string>, frozen: set<string>, env: Env, frames: Frames, x: string)
    requires Agrees(visible, frozen, env, frames) && x !in visible && IsIdentifier(x)
    ensures Find(frames, VariableName(x)).None?
  {
    hide VariableName;
    FindIffDeclared(frames, VariableName(x));
    if i :| 0 <= i < |frames| && VariableName(x) in frames[i] {
      assert IsNameOf(visible, VariableName(x));
      var y :| y in visible && VariableName(x) == VariableName(y);
      assert IsIdentifier(y);
      NamesAreInjective(x, y);
    }
  }

  /** An assignment in C++ matches an assignment in the source. */
  lemma AgreesAfterUpdate(visible: set<string>, frozen: set<string>, env: Env, env': Env, frames: Frames, x: string,
                          value: Value)
    requires Agrees(visible, frozen, env, frames) && x in visible && x !in frozen
    requires IsBasic(value) && AssignIn(env, x, value) == Ok(env')
    ensures var updated := Update(frames, VariableName(x), value);
            && Find(frames, VariableName(x)).Some?
            && TypeName(Find(frames, VariableName(x)).value.value) == TypeName(value)
            && updated.Some? && Grows(frames, updated.value) && Agrees(visible, frozen, env', updated.value)
  {
    hide VariableName;
    assert VisibleAgrees(frozen, env, frames, x);
    BasicAssignment(env, x, value);
    var name := VariableName(x);
    UpdateChangesOneCell(frames, name, value);
    var after := Update(frames, name, value).value;
    forall y | y in visible
      ensures IsIdentifier(y) && VisibleAgrees(frozen, env', after, y)
    {
      assert VisibleAgrees(frozen, env, frames, y);
      if y != x {
        NamesAreInjective(x, y);
      }
    }
    forall i, n | 0 <= i < |after| && n in after[i]
      ensures IsNameOf(visible, n)
    {
      assert n in frames[i];
    }
  }

  lemma AgreesAfterOpen(visible: set<string>, frozen: set<string>, env: Env, frames: Frames)
    requires Agrees(visible, frozen, env, frames)
    ensures Agrees(visible, frozen, env, frames + [map[]])
  {
    hide VariableName;
    var open := frames + [map[]];
    assert open[..|frames|] == frames;
    forall x | x in visible
      ensures IsIdentifier(x) && VisibleAgrees(frozen, env, open, x)
    {
      assert VisibleAgrees(frozen, env, frames, x);
    }
    forall i, n | 0 <= i < |open| && n in open[i]
      ensures IsNameOf(visible, n)
    {
      assert n in frames[i];
    }
  }

  /** A loop opens a frame that holds its variable alone. */
  lemma AgreesWithLoopVariable(visible: set<string>, frozen: set<string>, frozen': set<string>, env: Env, env': Env,
                               frames: Frames, x: string, cell: Cell)
    requires Agrees(visible, frozen, env, frames) && x !in visible && IsIdentifier(x)
    requires frozen <= frozen' && (x in frozen' || !cell.constant)
    requires x in env' && env' == env[x := env'[x]] && Holds(env'[x], cell.value) && !env'[x].constant
    ensures Agrees(visible + {x}, frozen', env', frames + [map[VariableName(x) := cell]])
  {
    hide VariableName;
    var name := VariableName(x);
    var open := frames + [map[name := cell]];
    assert open[..|frames|] == frames;
    NotVisibleNotFound(visible, frozen, env, frames, x);
    FindIffDeclared(frames, name);
    forall y | y in visible + {x}
      ensures IsIdentifier(y) && VisibleAgrees(frozen', env', open, y)
    {
      if y != x {
        assert VisibleAgrees(frozen, env, frames, y);
        NamesAreInjective(x, y);
      }
    }
    forall i, n | 0 <= i < |open| && n in open[i]
      ensures IsNameOf(visible + {x}, n)
    {
      if i == |frames| {
        assert x in visible + {x};
      } else {
        assert n in frames[i] && IsNameOf(visible, n);
        var y :| y in visible && n == VariableName(y);
        assert y in visible + {x};
      }
    }
  }

  /** Leaving a block forgets what it declared; the outer names keep the values given to them inside. */
  lemma AgreesAfterLeave(visible: set<string>, frozen: set<string>, inner: set<string>, innerFrozen: set<string>,
                         env: Env, env': Env, frames: Frames, top: map<string, Cell>, after: Frames)
    requires Agrees(visible, frozen, env, frames)
    requires visible <= inner && Agrees(inner, innerFrozen, env', after)
    requires forall x | x in visible && x in innerFrozen :: x in frozen
    requires Grows(frames + [top], after)
    ensures Grows(frames, after[..|frames|]) && Agrees(visible, frozen, env', after[..|frames|])
    ensures forall i | 0 <= i < |frames| :: after[i].Keys == frames[i].Keys
  {
    hide VariableName;
    var open := frames + [top];
    var left := after[..|frames|];
    forall i | 0 <= i < |frames|
      ensures left[i].Keys == frames[i].Keys
    {
      assert open[i].Keys == after[i].Keys;
    }
    forall x | x in visible
      ensures IsIdentifier(x) && VisibleAgrees(frozen, env', left, x)
    {
      var n := VariableName(x);
      assert VisibleAgrees(frozen, env, frames, x) && VisibleAgrees(innerFrozen, env', after, x);
      FindIffDeclared(frames, n);
      var i :| 0 <= i < |frames| && n in frames[i];
      assert n in after[i] && n !in after[|frames|];
    }
    forall i, n | 0 <= i < |left| && n in left[i]
      ensures IsNameOf(visible, n)
    {
      assert n in frames[i];
    }
  }
}
