/** The walk that refuses prototype-poisoning keys in any object graph (`util/safeJson.js`). */
module SafeJson {
  import opened Basics
  import Text

  /** A value is a primitive or a reference to a heap object; the heap may share and cycle. */
  datatype Val = Prim | Ref(id: nat)

  /** An own property: a data property has a value, an accessor has none. */
  datatype Property = Property(name: string, data: Option<Val>)

  /** An array may own named properties beside its elements; the walk never looks at them. */
  datatype Node = Arr(elems: seq<Val>, named: seq<Property>) | Obj(props: seq<Property>)

  type Graph = map<nat, Node>

  predicate Dangerous(key: string) {
    key in ["__proto__", "constructor", "prototype"]
  }

  function Arity(node: Node): nat {
    if node.Arr? then |node.elems| else |node.props|
  }

  function Child(node: Node, i: nat): Option<Val>
    requires i < Arity(node)
  {
    if node.Arr? then Some(node.elems[i]) else node.props[i].data
  }

  /** No reference leaves the heap. */
  ghost predicate Closed(g: Graph) {
    forall id, i :: id in g && 0 <= i < Arity(g[id]) ==>
      match Child(g[id], i)
      case Some(Ref(to)) => to in g
      case _ => true
  }

  ghost predicate In(g: Graph, v: Val) {
    v.Ref? ==> v.id in g
  }

  // ---- the specification: paths from the root

  function Follow(g: Graph, root: Val, path: seq<nat>): Option<Val> {
    if path == [] then Some(root)
    else
      match Follow(g, root, path[..|path| - 1])
      case Some(Ref(id)) =>
        var i := path[|path| - 1];
        if id in g && i < Arity(g[id]) then Child(g[id], i) else None
      case _ => None
  }

  function StepText(node: Node, i: nat): string
    requires i < Arity(node)
  {
    if node.Arr? then "[" + Text.Decimal(i) + "]" else "." + node.props[i].name
  }

  function Render(g: Graph, root: Val, start: string, path: seq<nat>): string {
    if path == [] then start
    else
      var before := path[..|path| - 1];
      var i := path[|path| - 1];
      Render(g, root, start, before) +
      match Follow(g, root, before)
      case Some(Ref(id)) => if id in g && i < Arity(g[id]) then StepText(g[id], i) else ""
      case _ => ""
  }

  predicate Owns(g: Graph, v: Val, key: string) {
    v.Ref? && v.id in g && g[v.id].Obj? && exists i :: 0 <= i < |g[v.id].props| && g[v.id].props[i].name == key
  }

  /** Some object that is not an array, reachable through elements and the data properties of such
      objects, owns a dangerous key. */
  ghost predicate Poisoned(g: Graph, root: Val) {
    exists path, key :: PoisonedAt(g, root, path, key)
  }

  ghost predicate PoisonedAt(g: Graph, root: Val, path: seq<nat>, key: string) {
    Dangerous(key) && Follow(g, root, path).Some? && Owns(g, Follow(g, root, path).value, key)
  }

  // ---- own properties of arrays

  function Indexed(elems: seq<Val>): (props: seq<Property>)
    ensures |props| == |elems|
  {
    seq(|elems|, i requires 0 <= i < |elems| => Property(Text.Decimal(i), Some(elems[i])))
  }

  /** The same graph with every array seen as the object it is: its elements under their indices, and
      its named properties. */
  function Whole(g: Graph): Graph {
    map id | id in g :: if g[id].Arr? then Obj(Indexed(g[id].elems) + g[id].named) else g[id]
  }

  /** An array with a named property that is dangerous or leads to a dangerous key. */
  ghost predicate Tainted(g: Graph, v: Val) {
    && v.Ref? && v.id in g && g[v.id].Arr?
    && exists k :: 0 <= k < |g[v.id].named| && TaintedBy(g, g[v.id].named[k])
  }

  ghost predicate TaintedBy(g: Graph, p: Property) {
    Dangerous(p.name) || (p.data.Some? && Poisoned(Whole(g), p.data.value))
  }

  ghost predicate TaintedAt(g: Graph, root: Val, path: seq<nat>) {
    Follow(g, root, path).Some? && Tainted(g, Follow(g, root, path).value)
  }

  lemma {:induction false} FollowSplit(g: Graph, root: Val, q: seq<nat>, r: seq<nat>)
    ensures Follow(g, root, q + r) ==
      if Follow(g, root, q).Some? then Follow(g, Follow(g, root, q).value, r) else None
  {
    if r == [] {
      assert q + r == q;
    } else {
      assert (q + r)[..|q + r| - 1] == q + r[..|r| - 1];
      FollowSplit(g, root, q, r[..|r| - 1]);
    }
  }

  /** A walked path is one in the whole graph. */
  lemma {:induction false} FollowWhole(g: Graph, root: Val, path: seq<nat>)
    requires Follow(g, root, path).Some?
    ensures Follow(Whole(g), root, path) == Follow(g, root, path)
  {
    if path != [] { FollowWhole(g, root, path[..|path| - 1]); }
  }

  lemma IndexIsSafe(i: nat)
    ensures !Dangerous(Text.Decimal(i))
  {
    hide Text.Decimal;
    assert "__proto__"[0] == '_' && "constructor"[0] == 'c' && "prototype"[0] == 'p';
  }

  lemma TaintShows(g: Graph, root: Val, path: seq<nat>)
    requires TaintedAt(g, root, path)
    ensures Poisoned(Whole(g), root)
  {
    hide Dangerous;
    FollowWhole(g, root, path);
    var w, v := Whole(g), Follow(g, root, path).value;
    var elems, named := g[v.id].elems, g[v.id].named;
    var k :| 0 <= k < |named| && TaintedBy(g, named[k]);
    var at := |elems| + k;
    assert w[v.id].props[at] == named[k];
    if Dangerous(named[k].name) {
      assert PoisonedAt(w, root, path, named[k].name);
    } else {
      var d := named[k].data.value;
      var rest, key :| PoisonedAt(w, d, rest, key);
      assert (path + [at])[..|path|] == path;
      FollowSplit(w, root, path + [at], rest);
      assert PoisonedAt(w, root, path + [at] + rest, key);
    }
  }

  /** A dangerous key of the whole graph is one the walk meets, or lies behind an array's named property:
      follow the path as long as the walk would. */
  lemma {:induction false} Departs(g: Graph, root: Val, path: seq<nat>, key: string, n: nat)
    requires PoisonedAt(Whole(g), root, path, key) && n <= |path|
    requires Follow(g, root, path[..n]).Some? && Follow(g, root, path[..n]) == Follow(Whole(g), root, path[..n])
    ensures Poisoned(g, root) || exists q :: TaintedAt(g, root, q)
    decreases |path| - n
  {
    hide Dangerous, Follow;
    var w, v := Whole(g), Follow(g, root, path[..n]).value;
    if n == |path| {
      assert path[..n] == path;
      OwnedInWhole(g, v, key);
      if Owns(g, v, key) {
        assert PoisonedAt(g, root, path, key);
      } else {
        assert TaintedAt(g, root, path);
      }
    } else {
      var step := path[n];
      assert path == path[..n + 1] + path[n + 1..];
      FollowSplit(w, root, path[..n + 1], path[n + 1..]);
      OneStep(w, root, path, n);
      OneStep(g, root, path, n);
      if g[v.id].Arr? && step >= |g[v.id].elems| {
        var k := step - |g[v.id].elems|;
        var d := Follow(w, root, path[..n + 1]).value;
        assert PoisonedAt(w, d, path[n + 1..], key);
        assert TaintedBy(g, g[v.id].named[k]);
        assert TaintedAt(g, root, path[..n]);
      } else {
        Departs(g, root, path, key, n + 1);
      }
    }
  }

  lemma OneStep(g: Graph, root: Val, path: seq<nat>, n: nat)
    requires n < |path| && Follow(g, root, path[..n]).Some?
    ensures
      var v := Follow(g, root, path[..n]).value;
      Follow(g, root, path[..n + 1]) ==
        if v.Ref? && v.id in g && path[n] < Arity(g[v.id]) then Child(g[v.id], path[n]) else None
  {
    assert path[..n + 1][..n] == path[..n];
  }

  lemma OwnedInWhole(g: Graph, v: Val, key: string)
    requires Dangerous(key) && Owns(Whole(g), v, key)
    ensures Owns(g, v, key) || Tainted(g, v)
  {
    hide Dangerous;
    if g[v.id].Arr? {
      var elems, props := g[v.id].elems, Whole(g)[v.id].props;
      var i :| 0 <= i < |props| && props[i].name == key;
      if i < |elems| {
        IndexIsSafe(i);
      } else {
        assert g[v.id].named[i - |elems|] == props[i];
      }
    }
  }

  /** What the walk misses: in the whole graph a dangerous key is reachable if and only if the walk meets
      one or reaches an array with a tainted named property. */
  lemma WholeExactly(g: Graph, root: Val)
    ensures Poisoned(Whole(g), root) <==> Poisoned(g, root) || exists path :: TaintedAt(g, root, path)
  {
    hide Follow, TaintedAt, Dangerous;
    if Poisoned(Whole(g), root) {
      var path, key :| PoisonedAt(Whole(g), root, path, key);
      assert path[..0] == [];
      assert Follow(g, root, []) == Some(root) && Follow(Whole(g), root, []) == Some(root) by { FollowNone(g, root); }
      Departs(g, root, path, key, 0);
    }
    if Poisoned(g, root) {
      var path, key :| PoisonedAt(g, root, path, key);
      FollowWhole(g, root, path);
      var v := Follow(g, root, path).value;
      assert Whole(g)[v.id] == g[v.id];
      assert PoisonedAt(Whole(g), root, path, key);
    }
    if path :| TaintedAt(g, root, path) { TaintShows(g, root, path); }
  }

  lemma FollowNone(g: Graph, root: Val)
    ensures Follow(g, root, []) == Some(root) && Follow(Whole(g), root, []) == Some(root)
  {
  }

  /** The input: an array that owns a dangerous key itself is let through. */
  lemma ArrayKeyPasses()
    ensures
      var g := map[0 := Arr([], [Property("__proto__", Some(Prim))])];
      Poisoned(Whole(g), Ref(0)) && !Poisoned(g, Ref(0))
  {
    var g := map[0 := Arr([], [Property("__proto__", Some(Prim))])];
    assert TaintedBy(g, g[0].named[0]);
    assert TaintedAt(g, Ref(0), []);
    TaintShows(g, Ref(0), []);
    forall path, key ensures !PoisonedAt(g, Ref(0), path, key) {
      if path != [] { NoChildren(g, path); }
    }
  }

  lemma {:induction false} NoChildren(g: Graph, path: seq<nat>)
    requires 0 in g && Arity(g[0]) == 0 && path != []
    ensures Follow(g, Ref(0), path).None?
  {
    if |path| > 1 { NoChildren(g, path[..|path| - 1]); }
  }

  // ---- the walk

  datatype Item = Item(node: Val, path: string)
  datatype Unsafe = Unsafe(key: string, path: string)

  /** What visiting the first n children pushes. */
  function Pushed(node: Node, path: string, n: nat): (items: seq<Item>)
    requires n <= Arity(node)
  {
    if n == 0 then []
    else
      var last := Child(node, n - 1);
      Pushed(node, path, n - 1) +
      (if last.Some? then [Item(last.value, path + StepText(node, n - 1))] else [])
  }

  /** The item was reached along a real path, and its text is that path's. */
  ghost predicate Located(g: Graph, root: Val, start: string, item: Item) {
    exists path :: LocatedAt(g, root, start, item, path)
  }

  ghost predicate LocatedAt(g: Graph, root: Val, start: string, item: Item, path: seq<nat>) {
    Follow(g, root, path) == Some(item.node) && Render(g, root, start, path) == item.path
  }

  ghost predicate Waiting(v: Val, stack: seq<Item>) {
    exists k :: 0 <= k < |stack| && stack[k].node == v
  }

  /** Nothing more to do for v than what is on the stack. */
  ghost predicate Handled(v: Val, seen: set<nat>, stack: seq<Item>) {
    v.Prim? || v.id in seen || Waiting(v, stack)
  }

  ghost predicate Clean(node: Node) {
    node.Obj? ==> forall i :: 0 <= i < |node.props| ==> !Dangerous(node.props[i].name)
  }

  ghost predicate ChildrenHandled(node: Node, seen: set<nat>, stack: seq<Item>) {
    forall i :: 0 <= i < Arity(node) && Child(node, i).Some? ==> Handled(Child(node, i).value, seen, stack)
  }

  lemma {:induction false} PushedWaiting(node: Node, path: string, n: nat, i: nat)
    requires i < n <= Arity(node) && Child(node, i).Some?
    ensures Waiting(Child(node, i).value, Pushed(node, path, n))
  {
    hide StepText;
    var items := Pushed(node, path, n);
    if i == n - 1 {
      assert items[|items| - 1].node == Child(node, i).value;
    } else {
      PushedWaiting(node, path, n - 1, i);
      var before := Pushed(node, path, n - 1);
      var k :| 0 <= k < |before| && before[k].node == Child(node, i).value;
      assert items[k] == before[k];
    }
  }

  lemma {:induction false} PushedLocated(g: Graph, root: Val, start: string, item: Item, n: nat, k: nat)
    requires item.node.Ref? && item.node.id in g && Located(g, root, start, item)
    requires n <= Arity(g[item.node.id]) && k < |Pushed(g[item.node.id], item.path, n)|
    ensures Located(g, root, start, Pushed(g[item.node.id], item.path, n)[k])
  {
    hide StepText;
    var node := g[item.node.id];
    if n > 0 {
      var before := Pushed(node, item.path, n - 1);
      if k < |before| {
        PushedLocated(g, root, start, item, n - 1, k);
      } else {
        var path :| LocatedAt(g, root, start, item, path);
        ExtendPath(g, root, start, item, path, n - 1);
      }
    }
  }

  lemma ExtendPath(g: Graph, root: Val, start: string, item: Item, path: seq<nat>, i: nat)
    requires item.node.Ref? && item.node.id in g && LocatedAt(g, root, start, item, path)
    requires i < Arity(g[item.node.id]) && Child(g[item.node.id], i).Some?
    ensures var node := g[item.node.id];
      LocatedAt(g, root, start, Item(Child(node, i).value, item.path + StepText(node, i)), path + [i])
  {
    hide StepText;
    assert (path + [i])[..|path|] == path;
  }

  lemma {:induction false} PathStaysSeen(g: Graph, root: Val, seen: set<nat>, path: seq<nat>)
    requires root.Prim? || root.id in seen
    requires forall id :: id in seen ==> id in g && ChildrenHandled(g[id], seen, [])
    ensures match Follow(g, root, path) case Some(Ref(id)) => id in seen case _ => true
  {
    if path != [] {
      var before, i := path[..|path| - 1], path[|path| - 1];
      PathStaysSeen(g, root, seen, before);
      match Follow(g, root, before) {
        case Some(Ref(id)) =>
          assert ChildrenHandled(g[id], seen, []);
        case _ =>
      }
    }
  }

  /** Invariant of the main loop. */
  ghost predicate Progress(g: Graph, root: Val, start: string, seen: set<nat>, stack: seq<Item>) {
    && seen <= g.Keys
    && (forall k :: 0 <= k < |stack| ==> Located(g, root, start, stack[k]) && In(g, stack[k].node))
    && (forall id :: id in seen ==> Clean(g[id]) && ChildrenHandled(g[id], seen, stack))
    && Handled(root, seen, stack)
  }

  lemma DoneIsSafe(g: Graph, root: Val, start: string, seen: set<nat>)
    requires Progress(g, root, start, seen, [])
    ensures !Poisoned(g, root)
  {
    forall path, key ensures !PoisonedAt(g, root, path, key) {
      PathStaysSeen(g, root, seen, path);
      match Follow(g, root, path) {
        case Some(Ref(id)) => assert Clean(g[id]);
        case _ =>
      }
    }
  }

  /** Dropping the top keeps what is handled, once the top itself needs nothing. */
  lemma PopHandled(v: Val, seen: set<nat>, stack: seq<Item>)
    requires stack != [] && Handled(v, seen, stack)
    ensures
      var top := stack[|stack| - 1].node;
      top.Prim? || top.id in seen ==> Handled(v, seen, stack[..|stack| - 1])
  {
    var rest := stack[..|stack| - 1];
    if Waiting(v, stack) {
      var k :| 0 <= k < |stack| && stack[k].node == v;
      assert k < |rest| ==> rest[k].node == v;
    }
  }

  lemma SkipKeeps(g: Graph, root: Val, start: string, seen: set<nat>, stack: seq<Item>)
    requires stack != [] && Progress(g, root, start, seen, stack)
    requires var top := stack[|stack| - 1].node; top.Prim? || top.id in seen
    ensures Progress(g, root, start, seen, stack[..|stack| - 1])
  {
    hide Located, Handled, Clean, In;
    var rest := stack[..|stack| - 1];
    PopHandled(root, seen, stack);
    forall id, i | id in seen && 0 <= i < Arity(g[id]) && Child(g[id], i).Some?
      ensures Handled(Child(g[id], i).value, seen, rest)
    {
      assert ChildrenHandled(g[id], seen, stack);
      PopHandled(Child(g[id], i).value, seen, stack);
    }
  }

  lemma MoreHandled(v: Val, seen: set<nat>, stack: seq<Item>, id: nat, more: seq<Item>)
    requires Handled(v, seen, stack)
    ensures Handled(v, seen + {id}, stack + more)
  {
    if Waiting(v, stack) {
      var k :| 0 <= k < |stack| && stack[k].node == v;
      assert (stack + more)[k].node == v;
    }
  }

  lemma MoreWaiting(v: Val, stack: seq<Item>, more: seq<Item>)
    requires Waiting(v, more)
    ensures Waiting(v, stack + more)
  {
    var k :| 0 <= k < |more| && more[k].node == v;
    assert (stack + more)[|stack| + k].node == v;
  }

  lemma VisitHandles(g: Graph, seen: set<nat>, stack: seq<Item>, top: Item, v: Val)
    requires stack != [] && top == stack[|stack| - 1] && top.node.Ref? && top.node.id in g
    requires Handled(v, seen, stack)
    ensures Handled(v, seen + {top.node.id},
                    stack[..|stack| - 1] + Pushed(g[top.node.id], top.path, Arity(g[top.node.id])))
  {
    hide Pushed, Handled, Waiting;
    var id := top.node.id;
    var more := Pushed(g[id], top.path, Arity(g[id]));
    MoreHandled(v, seen, stack, id, []);
    assert stack + [] == stack;
    PopHandled(v, seen + {id}, stack);
    MoreHandled(v, seen + {id}, stack[..|stack| - 1], id, more);
    assert seen + {id} + {id} == seen + {id};
  }

  lemma VisitKeeps(g: Graph, root: Val, start: string, seen: set<nat>, stack: seq<Item>, top: Item)
    requires Closed(g)
    requires stack != [] && top == stack[|stack| - 1] && top.node.Ref? && top.node.id in g
    requires Progress(g, root, start, seen, stack) && Clean(g[top.node.id])
    ensures
      var node := g[top.node.id];
      Progress(g, root, start, seen + {top.node.id}, stack[..|stack| - 1] + Pushed(node, top.path, Arity(node)))
  {
    hide Pushed, Handled, Waiting, Clean, Located;
    var id, node := top.node.id, g[top.node.id];
    var more := Pushed(node, top.path, Arity(node));
    var seen', stack' := seen + {id}, stack[..|stack| - 1] + more;
    VisitHandles(g, seen, stack, top, root);
    forall x, i | x in seen' && 0 <= i < Arity(g[x]) && Child(g[x], i).Some?
      ensures Handled(Child(g[x], i).value, seen', stack')
    {
      if x == id {
        PushedWaiting(node, top.path, Arity(node), i);
        MoreWaiting(Child(node, i).value, stack[..|stack| - 1], more);
        WaitingIsHandled(Child(node, i).value, seen', stack');
      } else {
        assert ChildrenHandled(g[x], seen, stack);
        VisitHandles(g, seen, stack, top, Child(g[x], i).value);
      }
    }
    forall k | 0 <= k < |more| ensures Located(g, root, start, more[k]) && In(g, more[k].node) {
      PushedLocated(g, root, start, top, Arity(node), k);
      PushedIn(g, id, top.path, Arity(node), k);
    }
  }

  lemma WaitingIsHandled(v: Val, seen: set<nat>, stack: seq<Item>)
    requires Waiting(v, stack)
    ensures Handled(v, seen, stack)
  {
  }

  lemma {:induction false} PushedIn(g: Graph, id: nat, path: string, n: nat, k: nat)
    requires Closed(g) && id in g && n <= Arity(g[id]) && k < |Pushed(g[id], path, n)|
    ensures In(g, Pushed(g[id], path, n)[k].node)
  {
    hide StepText;
    if n > 0 && k < |Pushed(g[id], path, n - 1)| {
      PushedIn(g, id, path, n - 1, k);
    } else if n > 0 {
      assert Child(g[id], n - 1).Some?;
    }
  }

  /** One popped object: its key loop either stops at a dangerous key or pushes every child. */
  method Visit(node: Node, path: string, stack: seq<Item>) returns (r: Result<seq<Item>, Unsafe>)
    ensures r.Ok? <==> Clean(node)
    ensures r.Ok? ==> r.value == stack + Pushed(node, path, Arity(node))
    ensures r.Err? ==>
      && r.error.path == path && Dangerous(r.error.key) && node.Obj?
      && exists i :: 0 <= i < |node.props| && node.props[i].name == r.error.key
  {
    hide StepText, Dangerous;
    var out, i := stack, 0;
    if node.Arr? {
      while i < |node.elems|
        invariant 0 <= i <= |node.elems| && out == stack + Pushed(node, path, i)
      {
        out := out + [Item(node.elems[i], path + StepText(node, i))];
        i := i + 1;
      }
      return Ok(out);
    }
    while i < |node.props|
      invariant 0 <= i <= |node.props| && out == stack + Pushed(node, path, i)
      invariant forall j :: 0 <= j < i ==> !Dangerous(node.props[j].name)
    {
      if Dangerous(node.props[i].name) {
        return Err(Unsafe(node.props[i].name, path));
      }
      if node.props[i].data.Some? {
        out := out + [Item(node.props[i].data.value, path + StepText(node, i))];
      }
      i := i + 1;
    }
    return Ok(out);
  }

  /** Terminates on every finite graph, and throws exactly for poisoned ones, naming a real place. */
  method AssertSafeJsonKeys(g: Graph, value: Val, start: string) returns (r: Result<Val, Unsafe>)
    requires Closed(g) && In(g, value)
    ensures r.Ok? <==> !Poisoned(g, value)
    ensures r.Ok? ==> r.value == value
    ensures r.Err? ==>
      exists path :: PoisonedAt(g, value, path, r.error.key) && Render(g, value, start, path) == r.error.path
  {
    hide Pushed, Located, Closed, Dangerous, Clean, Progress;
    var seen: set<nat>, stack := {}, [Item(value, start)];
    StartProgress(g, value, start);
    while stack != []
      invariant Progress(g, value, start, seen, stack)
      decreases |g.Keys - seen|, |stack|
    {
      TopIn(g, value, start, seen, stack);
      var current := stack[|stack| - 1];
      if current.node.Prim? || current.node.id in seen {
        SkipKeeps(g, value, start, seen, stack);
        stack := stack[..|stack| - 1];
      } else {
        var id := current.node.id;
        var visited := Visit(g[id], current.path, stack[..|stack| - 1]);
        if visited.Err? {
          FoundIsReal(g, value, start, current, visited.error.key);
          return Err(visited.error);
        }
        VisitKeeps(g, value, start, seen, stack, current);
        Shrinks(g.Keys, seen, id);
        seen := seen + {id};
        stack := visited.value;
      }
    }
    DoneIsSafe(g, value, start, seen);
    return Ok(value);
  }

  lemma StartProgress(g: Graph, value: Val, start: string)
    requires In(g, value)
    ensures Progress(g, value, start, {}, [Item(value, start)])
  {
    assert LocatedAt(g, value, start, Item(value, start), []);
    assert [Item(value, start)][0].node == value;
  }

  lemma TopIn(g: Graph, root: Val, start: string, seen: set<nat>, stack: seq<Item>)
    requires stack != [] && Progress(g, root, start, seen, stack)
    ensures var top := stack[|stack| - 1]; Located(g, root, start, top) && In(g, top.node)
  {
  }

  lemma Shrinks(all: set<nat>, seen: set<nat>, id: nat)
    requires id in all && id !in seen
    ensures |all - (seen + {id})| < |all - seen|
  {
    assert all - seen == (all - (seen + {id})) + {id};
  }

  lemma FoundIsReal(g: Graph, root: Val, start: string, item: Item, key: string)
    requires Located(g, root, start, item) && Dangerous(key) && Owns(g, item.node, key)
    ensures Poisoned(g, root)
    ensures exists path :: PoisonedAt(g, root, path, key) && Render(g, root, start, path) == item.path
  {
    hide Dangerous, Owns;
    var path :| LocatedAt(g, root, start, item, path);
    assert PoisonedAt(g, root, path, key);
  }
}
