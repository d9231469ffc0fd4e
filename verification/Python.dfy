/** The language the sources are written in, as far as the merge looks at it: a module scope of helpers
    and imports, and a class whose methods call each other through self (open recursion). Everything
    else a body does is an opaque deterministic primitive. */
module Python {

  datatype Option<+T> = None | Some(value: T)

  // ---- values

  datatype Column = Column(name: string, data: int)

  /** Frame is a polars frame; Params a dict of hyperparameters; Opaque any other object. */
  datatype Value =
    | NoneValue
    | Opaque(id: int)
    | Frame(columns: seq<Column>)
    | Params(entries: map<string, int>)
    | Tuple(items: seq<Value>)
    | List(elements: seq<Value>)

  datatype Error =
    | AttributeError(name: string)
    | NameError(name: string)
    | ArityError
    | UnpackError
    | HelperError
    | OtherError(code: int)

  datatype Outcome = Return(value: Value) | Raise(error: Error) | Diverge

  datatype ArgsOutcome = AllReturn(values: seq<Value>) | Stopped(outcome: Outcome)

  predicate Truthy(v: Value) {
    v != NoneValue && v != Opaque(0)
  }

  // ---- sources

  /** Method bodies. Var is a parameter or a local (locals are appended to the environment);
      Unpack is `a, b = bound; body`, Display a tuple. */
  datatype Term =
    | Const(value: Value)
    | Var(index: nat)
    | Global(name: string, args: seq<Term>)
    | SelfCall(name: string, args: seq<Term>)
    | Let(bound: Term, body: Term)
    | Unpack(bound: Term, body: Term)
    | If(cond: Term, thn: Term, els: Term)
    | Display(parts: seq<Term>)

  /** masked holds the module-level names of the body that the method's text also binds somewhere (a local of a
      nested function, say): the undefined-name check does not look for them. */
  datatype Method = Method(arity: nat, masked: set<string>, body: Term)

  /** helpers maps a top-level definition to its text, imports a local name to what it imports.
      frozen lists the `Patch.frozen_params = ...` statements in order. */
  datatype Source = Source(
    helpers: map<string, string>,
    imports: map<string, string>,
    members: map<string, Method>,
    overrides: set<string>,
    frozen: seq<map<string, int>>)

  const EMPTY_SOURCE := Source(map[], map[], map[], {}, [])

  // ---- module scope

  datatype Target =
    | HelperText(text: string)
    | Imported(path: string)
    | Builtin(name: string)
    | Undefined(name: string)

  function Resolve(builtins: set<string>, src: Source, g: string): Target {
    if g in src.helpers then HelperText(src.helpers[g])
    else if g in src.imports then Imported(src.imports[g])
    else if g in builtins then Builtin(g)
    else Undefined(g)
  }

  // ---- the two combining helpers of evaluator/harness.py

  const UNION_COLUMNS := "_union_feature_columns"
  const UNION_CANDIDATES := "_union_param_candidates"
  const UNION_COLUMNS_PATH := "evaluator.harness._union_feature_columns"
  const UNION_CANDIDATES_PATH := "evaluator.harness._union_param_candidates"

  function ColumnNames(cols: seq<Column>): set<string> {
    set c | c in cols :: c.name
  }

  function DropColumns(cols: seq<Column>, names: set<string>): seq<Column> {
    if cols == [] then []
    else if cols[0].name in names then DropColumns(cols[1..], names)
    else [cols[0]] + DropColumns(cols[1..], names)
  }

  /** Column union; a name on both sides keeps the patch's column. */
  function UnionColumns(base: seq<Column>, patch: seq<Column>): seq<Column> {
    DropColumns(base, ColumnNames(patch)) + patch
  }

  /** Keeps the first occurrence of each element. */
  function Dedup<T(==)>(xs: seq<T>): seq<T> {
    if xs == [] then []
    else
      var rest := Dedup(xs[..|xs| - 1]);
      var x := xs[|xs| - 1];
      if x in rest then rest else rest + [x]
  }

  ghost predicate NoDuplicates<T>(xs: seq<T>) {
    forall i, j :: 0 <= i < j < |xs| ==> xs[i] != xs[j]
  }

  lemma {:induction false} DedupFacts<T>(xs: seq<T>)
    ensures NoDuplicates(Dedup(xs))
    ensures forall x :: x in Dedup(xs) <==> x in xs
    ensures Dedup(xs) == xs <==> NoDuplicates(xs)
    ensures |Dedup(xs)| <= |xs|
  {
    if xs != [] {
      var init, x := xs[..|xs| - 1], xs[|xs| - 1];
      DedupFacts(init);
      assert xs == init + [x];
      AppendDuplicates(init, x);
      AppendDuplicates(Dedup(init), x);
    }
  }

  lemma AppendDuplicates<T>(xs: seq<T>, x: T)
    ensures NoDuplicates(xs + [x]) <==> NoDuplicates(xs) && x !in xs
  {
    var ys := xs + [x];
    if NoDuplicates(ys) {
      forall i, j | 0 <= i < j < |xs| ensures xs[i] != xs[j] {
        assert ys[i] != ys[j];
      }
      forall i | 0 <= i < |xs| ensures xs[i] != x {
        assert ys[i] != ys[|xs|];
      }
    }
  }

  function UnionCandidates(base: seq<Value>, patch: seq<Value>): seq<Value> {
    Dedup(base + patch)
  }

  /** What calling _union_feature_columns or _union_param_candidates does. */
  function UnionFrames(a: Value, b: Value): Outcome {
    if a.Frame? && b.Frame? then Return(Frame(UnionColumns(a.columns, b.columns))) else Raise(HelperError)
  }

  function UnionLists(a: Value, b: Value): Outcome {
    if a.List? && b.List? then Return(List(UnionCandidates(a.elements, b.elements))) else Raise(HelperError)
  }

  // ---- evaluation

  /** call gives the meaning of opaque code: a helper's text, an imported name or a builtin. */
  datatype World = World(builtins: set<string>, call: (Target, seq<Value>) -> Outcome)

  function Apply(w: World, target: Target, vs: seq<Value>): Outcome {
    if target == Imported(UNION_COLUMNS_PATH) && |vs| == 2 then UnionFrames(vs[0], vs[1])
    else if target == Imported(UNION_CANDIDATES_PATH) && |vs| == 2 then UnionLists(vs[0], vs[1])
    else w.call(target, vs)
  }

  /** The two values `a, b = v` binds, if v has exactly two. */
  function Halves(v: Value): Option<(Value, Value)> {
    match v
    case Tuple(items) => if |items| == 2 then Some((items[0], items[1])) else None
    case List(items) => if |items| == 2 then Some((items[0], items[1])) else None
    case _ => None
  }

  /** Evaluates t; fuel bounds the depth of self calls, and Diverge means it ran out. */
  function Eval(w: World, src: Source, t: Term, env: seq<Value>, fuel: nat): Outcome
    decreases fuel, t, 1
  {
    match t
    case Const(v) => Return(v)
    case Var(i) => if i < |env| then Return(env[i]) else Raise(OtherError(0))
    case Global(name, args) =>
      var target := Resolve(w.builtins, src, name);
      if target.Undefined? then Raise(NameError(name))
      else
        (match EvalArgs(w, src, args, env, fuel)
         case AllReturn(vs) => Apply(w, target, vs)
         case Stopped(o) => o)
    case SelfCall(name, args) =>
      if name !in src.members then Raise(AttributeError(name))
      else
        (match EvalArgs(w, src, args, env, fuel)
         case AllReturn(vs) =>
           if fuel == 0 then Diverge
           else if |vs| != src.members[name].arity then Raise(ArityError)
           else Eval(w, src, src.members[name].body, vs, fuel - 1)
         case Stopped(o) => o)
    case Let(bound, body) =>
      (match Eval(w, src, bound, env, fuel)
       case Return(v) => Eval(w, src, body, env + [v], fuel)
       case o => o)
    case Unpack(bound, body) =>
      (match Eval(w, src, bound, env, fuel)
       case Return(v) =>
         (match Halves(v)
          case Some(p) => Eval(w, src, body, env + [p.0, p.1], fuel)
          case None => Raise(UnpackError))
       case o => o)
    case If(cond, thn, els) =>
      (match Eval(w, src, cond, env, fuel)
       case Return(v) => if Truthy(v) then Eval(w, src, thn, env, fuel) else Eval(w, src, els, env, fuel)
       case o => o)
    case Display(parts) =>
      (match EvalArgs(w, src, parts, env, fuel)
       case AllReturn(vs) => Return(Tuple(vs))
       case Stopped(o) => o)
  }

  function EvalArgs(w: World, src: Source, args: seq<Term>, env: seq<Value>, fuel: nat): (r: ArgsOutcome)
    ensures r.AllReturn? ==> |r.values| == |args|
    ensures r.Stopped? ==> !r.outcome.Return?
    decreases fuel, args, 0
  {
    if args == [] then AllReturn([])
    else
      match Eval(w, src, args[0], env, fuel)
      case Return(v) =>
        (match EvalArgs(w, src, args[1..], env, fuel)
         case AllReturn(vs) => AllReturn([v] + vs)
         case Stopped(o) => Stopped(o))
      case o => Stopped(o)
  }

  lemma {:induction false} MoreFuel(w: World, src: Source, t: Term, env: seq<Value>, f: nat, g: nat)
    requires f <= g
    requires Eval(w, src, t, env, f) != Diverge
    ensures Eval(w, src, t, env, g) == Eval(w, src, t, env, f)
    decreases f, t, 1
  {
    match t
    case Const(_) =>
    case Var(_) =>
    case Global(_, args) =>
      if !Resolve(w.builtins, src, t.name).Undefined? { MoreFuelArgs(w, src, args, env, f, g); }
    case SelfCall(name, args) =>
      if name in src.members {
        MoreFuelArgs(w, src, args, env, f, g);
        var r := EvalArgs(w, src, args, env, f);
        if r.AllReturn? && f > 0 && |r.values| == src.members[name].arity {
          MoreFuel(w, src, src.members[name].body, r.values, f - 1, g - 1);
        }
      }
    case Let(bound, body) =>
      MoreFuel(w, src, bound, env, f, g);
      var r := Eval(w, src, bound, env, f);
      if r.Return? { MoreFuel(w, src, body, env + [r.value], f, g); }
    case Unpack(bound, body) =>
      MoreFuel(w, src, bound, env, f, g);
      var r := Eval(w, src, bound, env, f);
      if r.Return? && Halves(r.value).Some? {
        var p := Halves(r.value).value;
        MoreFuel(w, src, body, env + [p.0, p.1], f, g);
      }
    case If(cond, thn, els) =>
      MoreFuel(w, src, cond, env, f, g);
      var r := Eval(w, src, cond, env, f);
      if r.Return? {
        if Truthy(r.value) { MoreFuel(w, src, thn, env, f, g); } else { MoreFuel(w, src, els, env, f, g); }
      }
    case Display(parts) =>
      MoreFuelArgs(w, src, parts, env, f, g);
  }

  lemma {:induction false} MoreFuelArgs(w: World, src: Source, args: seq<Term>, env: seq<Value>, f: nat, g: nat)
    requires f <= g
    requires EvalArgs(w, src, args, env, f) != Stopped(Diverge)
    ensures EvalArgs(w, src, args, env, g) == EvalArgs(w, src, args, env, f)
    decreases f, args, 0
  {
    if args != [] {
      MoreFuel(w, src, args[0], env, f, g);
      if Eval(w, src, args[0], env, f).Return? { MoreFuelArgs(w, src, args[1..], env, f, g); }
    }
  }

  // ---- the meaning of a term, free of fuel

  ghost function Run(w: World, src: Source, t: Term, env: seq<Value>): Outcome {
    if exists f: nat :: Eval(w, src, t, env, f) != Diverge then
      var f: nat :| Eval(w, src, t, env, f) != Diverge;
      Eval(w, src, t, env, f)
    else Diverge
  }

  /** What invoking self.name(vs...) from outside does. */
  ghost function Call(w: World, src: Source, name: string, vs: seq<Value>): Outcome {
    if name !in src.members then Raise(AttributeError(name))
    else if |vs| != src.members[name].arity then Raise(ArityError)
    else Run(w, src, src.members[name].body, vs)
  }

  /** An outcome seen at every large enough fuel is the meaning. */
  lemma RunIs(w: World, src: Source, t: Term, env: seq<Value>, f0: nat, o: Outcome)
    requires forall f: nat :: f >= f0 ==> Eval(w, src, t, env, f) == o
    ensures Run(w, src, t, env) == o
  {
    if exists f: nat :: Eval(w, src, t, env, f) != Diverge {
      var f: nat :| Eval(w, src, t, env, f) != Diverge && Run(w, src, t, env) == Eval(w, src, t, env, f);
      var g := if f > f0 then f else f0;
      MoreFuel(w, src, t, env, f, g);
    } else {
      assert Eval(w, src, t, env, f0) == o;
    }
  }

  /** From some fuel on, evaluation shows the meaning. */
  lemma Settles(w: World, src: Source, t: Term, env: seq<Value>) returns (f0: nat)
    ensures forall f: nat :: f >= f0 ==> Eval(w, src, t, env, f) == Run(w, src, t, env)
  {
    if exists f: nat :: Eval(w, src, t, env, f) != Diverge {
      f0 :| Eval(w, src, t, env, f0) != Diverge && Run(w, src, t, env) == Eval(w, src, t, env, f0);
      forall f: nat | f >= f0 ensures Eval(w, src, t, env, f) == Run(w, src, t, env) {
        MoreFuel(w, src, t, env, f0, f);
      }
    } else {
      f0 := 0;
    }
  }

  /** Arguments that are all variables just read the environment. */
  lemma {:induction false} VarArgs(w: World, src: Source, args: seq<Term>, env: seq<Value>, fuel: nat, vs: seq<Value>)
    requires |vs| == |args|
    requires forall i :: 0 <= i < |args| ==> args[i].Var? && args[i].index < |env| && vs[i] == env[args[i].index]
    ensures EvalArgs(w, src, args, env, fuel) == AllReturn(vs)
    decreases args
  {
    if args != [] {
      assert Eval(w, src, args[0], env, fuel) == Return(vs[0]);
      VarArgs(w, src, args[1..], env, fuel, vs[1..]);
      assert [vs[0]] + vs[1..] == vs;
    }
  }

  lemma SelfCallVars(w: World, src: Source, name: string, args: seq<Term>, env: seq<Value>, vs: seq<Value>)
    requires name in src.members
    requires |vs| == |args|
    requires forall i :: 0 <= i < |args| ==> args[i].Var? && args[i].index < |env| && vs[i] == env[args[i].index]
    ensures Run(w, src, SelfCall(name, args), env) == Call(w, src, name, vs)
  {
    var f0 := Settles(w, src, src.members[name].body, vs);
    forall f: nat | f >= f0 + 1
      ensures Eval(w, src, SelfCall(name, args), env, f) == Call(w, src, name, vs)
    {
      VarArgs(w, src, args, env, f, vs);
    }
    RunIs(w, src, SelfCall(name, args), env, f0 + 1, Call(w, src, name, vs));
  }

  lemma RunLet(w: World, src: Source, bound: Term, body: Term, env: seq<Value>)
    ensures Run(w, src, Let(bound, body), env) ==
            match Run(w, src, bound, env)
            case Return(v) => Run(w, src, body, env + [v])
            case o => o
  {
    var a := Settles(w, src, bound, env);
    var r := Run(w, src, bound, env);
    if r.Return? {
      var b := Settles(w, src, body, env + [r.value]);
      RunIs(w, src, Let(bound, body), env, a + b, Run(w, src, body, env + [r.value]));
    } else {
      RunIs(w, src, Let(bound, body), env, a, r);
    }
  }

  lemma RunUnpack(w: World, src: Source, bound: Term, body: Term, env: seq<Value>)
    ensures Run(w, src, Unpack(bound, body), env) ==
            match Run(w, src, bound, env)
            case Return(v) =>
              (match Halves(v)
               case Some(p) => Run(w, src, body, env + [p.0, p.1])
               case None => Raise(UnpackError))
            case o => o
  {
    var a := Settles(w, src, bound, env);
    var r := Run(w, src, bound, env);
    if r.Return? && Halves(r.value).Some? {
      var p := Halves(r.value).value;
      var b := Settles(w, src, body, env + [p.0, p.1]);
      RunIs(w, src, Unpack(bound, body), env, a + b, Run(w, src, body, env + [p.0, p.1]));
    } else {
      RunIs(w, src, Unpack(bound, body), env, a, if r.Return? then Raise(UnpackError) else r);
    }
  }

  /** A two-argument call of a combining helper. */
  lemma RunGlobal2(w: World, src: Source, g: string, x: Term, y: Term, env: seq<Value>)
    requires !Resolve(w.builtins, src, g).Undefined?
    ensures Run(w, src, Global(g, [x, y]), env) ==
            match Run(w, src, x, env)
            case Return(a) =>
              (match Run(w, src, y, env)
               case Return(b) => Apply(w, Resolve(w.builtins, src, g), [a, b])
               case o => o)
            case o => o
  {
    var fx := Settles(w, src, x, env);
    var fy := Settles(w, src, y, env);
    var want := match Run(w, src, x, env)
                case Return(a) =>
                  (match Run(w, src, y, env)
                   case Return(b) => Apply(w, Resolve(w.builtins, src, g), [a, b])
                   case o => o)
                case o => o;
    forall f: nat | f >= fx + fy ensures Eval(w, src, Global(g, [x, y]), env, f) == want {
      TwoArgs(w, src, x, y, env, f);
    }
    RunIs(w, src, Global(g, [x, y]), env, fx + fy, want);
  }

  lemma TwoArgs(w: World, src: Source, x: Term, y: Term, env: seq<Value>, f: nat)
    ensures EvalArgs(w, src, [x, y], env, f) ==
            match Eval(w, src, x, env, f)
            case Return(a) =>
              (match Eval(w, src, y, env, f)
               case Return(b) => AllReturn([a, b])
               case o => Stopped(o))
            case o => Stopped(o)
  {
    var args := [x, y];
    assert args[1..] == [y];
    assert [y][1..] == [];
    assert EvalArgs(w, src, [], env, f) == AllReturn([]);
    var e := EvalArgs(w, src, [y], env, f);
    assert e == match Eval(w, src, y, env, f) case Return(b) => AllReturn([b]) case o => Stopped(o) by {
      if Eval(w, src, y, env, f).Return? {
        assert [Eval(w, src, y, env, f).value] + [] == [Eval(w, src, y, env, f).value];
      }
    }
  }

  lemma RunDisplay2(w: World, src: Source, x: Term, y: Term, env: seq<Value>)
    ensures Run(w, src, Display([x, y]), env) ==
            match Run(w, src, x, env)
            case Return(a) =>
              (match Run(w, src, y, env)
               case Return(b) => Return(Tuple([a, b]))
               case o => o)
            case o => o
  {
    var fx := Settles(w, src, x, env);
    var fy := Settles(w, src, y, env);
    var want := match Run(w, src, x, env)
                case Return(a) =>
                  (match Run(w, src, y, env)
                   case Return(b) => Return(Tuple([a, b]))
                   case o => o)
                case o => o;
    forall f: nat | f >= fx + fy ensures Eval(w, src, Display([x, y]), env, f) == want {
      TwoArgs(w, src, x, y, env, f);
    }
    RunIs(w, src, Display([x, y]), env, fx + fy, want);
  }

  lemma RunVar(w: World, src: Source, i: nat, env: seq<Value>)
    requires i < |env|
    ensures Run(w, src, Var(i), env) == Return(env[i])
  {
    RunIs(w, src, Var(i), env, 0, Return(env[i]));
  }

  // ---- what a term refers to

  function Refs(t: Term): set<string>
    decreases t, 1
  {
    match t
    case Const(_) => {}
    case Var(_) => {}
    case Global(_, args) => RefsAll(args)
    case SelfCall(name, args) => {name} + RefsAll(args)
    case Let(bound, body) => Refs(bound) + Refs(body)
    case Unpack(bound, body) => Refs(bound) + Refs(body)
    case If(cond, thn, els) => Refs(cond) + Refs(thn) + Refs(els)
    case Display(parts) => RefsAll(parts)
  }

  function RefsAll(ts: seq<Term>): set<string>
    decreases ts, 0
  {
    if ts == [] then {} else Refs(ts[0]) + RefsAll(ts[1..])
  }

  function Globals(t: Term): set<string>
    decreases t, 1
  {
    match t
    case Const(_) => {}
    case Var(_) => {}
    case Global(name, args) => {name} + GlobalsAll(args)
    case SelfCall(_, args) => GlobalsAll(args)
    case Let(bound, body) => Globals(bound) + Globals(body)
    case Unpack(bound, body) => Globals(bound) + Globals(body)
    case If(cond, thn, els) => Globals(cond) + Globals(thn) + Globals(els)
    case Display(parts) => GlobalsAll(parts)
  }

  function GlobalsAll(ts: seq<Term>): set<string>
    decreases ts, 0
  {
    if ts == [] then {} else Globals(ts[0]) + GlobalsAll(ts[1..])
  }

  /** t means the same in both sources as far as names go: its self references stay inside scope and
      its module-level names resolve alike. */
  ghost predicate Portable(w: World, a: Source, b: Source, scope: set<string>, refs: set<string>, globals: set<string>) {
    refs <= scope && forall g :: g in globals ==> Resolve(w.builtins, a, g) == Resolve(w.builtins, b, g)
  }

  /** Every name of scope is bound to the same method in both sources, and those methods stay in scope. */
  ghost predicate SameScope(w: World, a: Source, b: Source, scope: set<string>) {
    forall n :: n in scope ==>
      && n in a.members && n in b.members && a.members[n] == b.members[n]
      && Portable(w, a, b, scope, Refs(a.members[n].body), Globals(a.members[n].body))
  }

  lemma {:induction false} EvalAgrees(w: World, a: Source, b: Source, scope: set<string>, t: Term, env: seq<Value>, fuel: nat)
    requires SameScope(w, a, b, scope)
    requires Portable(w, a, b, scope, Refs(t), Globals(t))
    ensures Eval(w, a, t, env, fuel) == Eval(w, b, t, env, fuel)
    decreases fuel, t, 1
  {
    match t
    case Const(_) =>
    case Var(_) =>
    case Global(name, args) =>
      EvalArgsAgree(w, a, b, scope, args, env, fuel);
    case SelfCall(name, args) =>
      EvalArgsAgree(w, a, b, scope, args, env, fuel);
      var r := EvalArgs(w, a, args, env, fuel);
      if r.AllReturn? && fuel > 0 {
        EvalAgrees(w, a, b, scope, a.members[name].body, r.values, fuel - 1);
      }
    case Let(bound, body) =>
      EvalAgrees(w, a, b, scope, bound, env, fuel);
      var r := Eval(w, a, bound, env, fuel);
      if r.Return? { EvalAgrees(w, a, b, scope, body, env + [r.value], fuel); }
    case Unpack(bound, body) =>
      EvalAgrees(w, a, b, scope, bound, env, fuel);
      var r := Eval(w, a, bound, env, fuel);
      if r.Return? && Halves(r.value).Some? {
        var p := Halves(r.value).value;
        EvalAgrees(w, a, b, scope, body, env + [p.0, p.1], fuel);
      }
    case If(cond, thn, els) =>
      EvalAgrees(w, a, b, scope, cond, env, fuel);
      EvalAgrees(w, a, b, scope, thn, env, fuel);
      EvalAgrees(w, a, b, scope, els, env, fuel);
    case Display(parts) =>
      EvalArgsAgree(w, a, b, scope, parts, env, fuel);
  }

  lemma {:induction false} EvalArgsAgree(w: World, a: Source, b: Source, scope: set<string>, args: seq<Term>, env: seq<Value>, fuel: nat)
    requires SameScope(w, a, b, scope)
    requires Portable(w, a, b, scope, RefsAll(args), GlobalsAll(args))
    ensures EvalArgs(w, a, args, env, fuel) == EvalArgs(w, b, args, env, fuel)
    decreases fuel, args, 0
  {
    if args != [] {
      EvalAgrees(w, a, b, scope, args[0], env, fuel);
      EvalArgsAgree(w, a, b, scope, args[1..], env, fuel);
    }
  }

  /** A method moved to another source, under the same or another name, keeps its meaning when its
      scope moves with it. */
  lemma CallAgrees(w: World, a: Source, an: string, b: Source, bn: string, scope: set<string>, vs: seq<Value>)
    requires SameScope(w, a, b, scope)
    requires an in a.members && bn in b.members && a.members[an] == b.members[bn]
    requires Portable(w, a, b, scope, Refs(a.members[an].body), Globals(a.members[an].body))
    ensures Call(w, a, an, vs) == Call(w, b, bn, vs)
  {
    var body := a.members[an].body;
    var f0 := Settles(w, b, body, vs);
    forall f: nat | f >= f0 ensures Eval(w, a, body, vs, f) == Run(w, b, body, vs) {
      EvalAgrees(w, a, b, scope, body, vs, f);
    }
    RunIs(w, a, body, vs, f0, Run(w, b, body, vs));
  }
}
