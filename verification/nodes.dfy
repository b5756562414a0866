/** The module tree of `torchfed.modules.module.Module`: each node's name,
    instrumentation flags, routing table of submodules (keyed by LOCAL
    name), capability table and `execute` generator; submodule
    registration; and the `__call__` entry point. */
module Nodes {
  import opened Wrappers
  import opened Paths
  import opened Stepping

  /** Identifies the implementation of a capability (a method of the
      module's class). */
  type OpId = string

  /** An entry of the capability table: a method reachable by name, and
      whether it carries the `exposed` marker. */
  datatype Capability = Capability(exposed: bool, op: OpId)

  /** A module object. `children` is `routing_table`; `caps` replaces the
      reflective `hasattr`/`getattr` lookup; `gen` is `execute_gen`. */
  datatype Node = Node(
    name: string,
    visualizer: bool,
    debug: bool,
    children: map<string, Node>,
    caps: map<string, Capability>,
    gen: Stepper)

  /** The base constructor `Module.__init__`: the given name and flags, an
      empty routing table, and a generator of `execute` created at once. */
  function NewModule(name: string, caps: map<string, Capability>, pass: seq<bool>,
                     visualizer: bool, debug: bool): (n: Node)
    ensures WellNamed(n) && n.name == name
    ensures n.children == map[] && n.caps == caps
    ensures n.visualizer == visualizer && n.debug == debug
    ensures n.gen.cursor == 0 && n.gen.pass == pass
  {
    Node(name, visualizer, debug, map[], caps, Fresh(pass))
  }

  /** The name a submodule is given: `f"{self.name}/{name}"`. */
  function Qualified(parent: string, local: string): string
  {
    parent + "/" + local
  }

  /** Every submodule in the tree is named after its parent and its key in
      the parent's routing table. */
  ghost predicate WellNamed(n: Node)
  {
    forall k :: k in n.children ==>
      n.children[k].name == Qualified(n.name, k) && WellNamed(n.children[k])
  }

  /** Every submodule in the tree carries the flags of the tree's top. */
  ghost predicate FlagsInherited(n: Node)
  {
    forall k :: k in n.children ==>
      n.children[k].visualizer == n.visualizer && n.children[k].debug == n.debug
      && FlagsInherited(n.children[k])
  }

  /** Following a chain of routing-table keys down from `n`. */
  function Descend(n: Node, chain: seq<string>): Option<Node>
    decreases |chain|
  {
    if |chain| == 0 then Some(n)
    else if chain[0] in n.children then Descend(n.children[chain[0]], chain[1..])
    else None
  }

  /** In a well-named tree, the node reached by a non-empty chain of keys
      is named by the top's name, a slash, and the chain joined by slashes;
      the subtree below it is well named too. */
  lemma {:induction false} DescendName(n: Node, chain: seq<string>)
    requires WellNamed(n) && Descend(n, chain).Some?
    ensures WellNamed(Descend(n, chain).value)
    ensures |chain| >= 1 ==> Descend(n, chain).value.name == n.name + "/" + Join(chain)
    decreases |chain|
  {
    if |chain| >= 1 {
      var c := n.children[chain[0]];
      DescendName(c, chain[1..]);
      if |chain| >= 2 {
        assert chain == [chain[0]] + chain[1..];
        JoinAppend([chain[0]], chain[1..]);
      }
    }
  }

  /** A module class's constructor, applied to the qualified name and the
      parent's `visualizer` and `debug` flags. */
  type Factory = (string, bool, bool) -> Node

  /** A constructor that goes through `Module.__init__`: the node it builds
      carries the name and flags it was given, and any submodules its own
      constructor registered are named under it and inherit its flags. */
  ghost predicate Conforming(build: Factory)
  {
    forall q, v, d :: build(q, v, d).name == q
      && build(q, v, d).visualizer == v && build(q, v, d).debug == d
      && WellNamed(build(q, v, d)) && FlagsInherited(build(q, v, d))
  }

  /** The exception `register_submodule` raises. */
  datatype RegisterError = DuplicateName

  /** The parent after registration, and the submodule it returns. */
  datatype Registered = Registered(parent: Node, child: Node)

  /** `register_submodule`, with its duplicate guard as written: the guard
      looks up the QUALIFIED name in a table whose keys are LOCAL names. On
      success the new node is stored under its local name, replacing any
      earlier entry of that name, and nothing else in the parent changes. */
  function RegisterSubmodule(parent: Node, build: Factory, local: string): (r: Result<Registered, RegisterError>)
    ensures r.Failure? <==> Qualified(parent.name, local) in parent.children
    ensures r.Success? ==>
      r.value.child == build(Qualified(parent.name, local), parent.visualizer, parent.debug)
    ensures r.Success? ==>
      && r.value.parent.children.Keys == parent.children.Keys + {local}
      && r.value.parent.children[local] == r.value.child
      && (forall k :: k in parent.children && k != local ==>
            r.value.parent.children[k] == parent.children[k])
      && r.value.parent.(children := parent.children) == parent
  {
    var q := Qualified(parent.name, local);
    if q in parent.children then Failure(DuplicateName)
    else
      var child := build(q, parent.visualizer, parent.debug);
      Success(Registered(parent.(children := parent.children[local := child]), child))
  }

  /** With a constructor that goes through `Module.__init__`, the submodule
      is named `parent/local`, shares the parent's root name, and inherits the parent's `visualizer` and `debug` flags. */
  lemma ChildNamedUnderParent(parent: Node, build: Factory, local: string)
    requires Conforming(build)
    requires RegisterSubmodule(parent, build, local).Success?
    ensures var c := RegisterSubmodule(parent, build, local).value.child;
      && c.name == parent.name + "/" + local
      && RootName(c.name) == RootName(parent.name)
      && c.visualizer == parent.visualizer && c.debug == parent.debug
  {
    RootNameOfExtension(parent.name, local);
  }

  /** Registration keeps a tree well named and its flags inherited. */
  lemma {:induction false} RegisterPreservesShape(parent: Node, build: Factory, local: string)
    requires Conforming(build)
    requires WellNamed(parent) && FlagsInherited(parent)
    requires RegisterSubmodule(parent, build, local).Success?
    ensures WellNamed(RegisterSubmodule(parent, build, local).value.parent)
    ensures FlagsInherited(RegisterSubmodule(parent, build, local).value.parent)
  {
  }

  /** The guard misses true duplicates: registering a local name that is
      already a key, while `parent/local` is not, succeeds and silently
      replaces the earlier submodule; the table does not grow. */
  lemma {:induction false} DuplicateLocalNameReplaces(parent: Node, build: Factory, local: string)
    requires local in parent.children
    requires Qualified(parent.name, local) !in parent.children
    ensures RegisterSubmodule(parent, build, local).Success?
    ensures var p' := RegisterSubmodule(parent, build, local).value.parent;
      |p'.children| == |parent.children| &&
      p'.children[local] == build(Qualified(parent.name, local), parent.visualizer, parent.debug)
  {
  }

  /** Concrete instances of both ways the guard goes wrong, on a parent
      named `p`: registering `a` twice succeeds both times; and registering
      `a` raises when only a submodule keyed `p/a` exists. */
  lemma GuardCounterexamples(build: Factory)
    ensures var empty := NewModule("p", map[], DefaultPass, false, false);
      var once := RegisterSubmodule(empty, build, "a");
      once.Success? && RegisterSubmodule(once.value.parent, build, "a").Success?
    ensures var odd := NewModule("p", map[], DefaultPass, false, false);
      var withKey := odd.(children := map["p/a" := odd]);
      "a" !in withKey.children && RegisterSubmodule(withKey, build, "a").Failure?
  {
    var empty := NewModule("p", map[], DefaultPass, false, false);
    var once := RegisterSubmodule(empty, build, "a");
    assert Qualified("p", "a") == "p/a";
    assert "p/a" != "a";
    assert once.value.parent.children.Keys == {"a"};
  }

  /** Registration with the guard the error message describes: it raises
      exactly when the LOCAL name is already registered, so no earlier
      submodule is ever replaced. */
  function RegisterChild(parent: Node, build: Factory, local: string): (r: Result<Registered, RegisterError>)
    ensures r.Failure? <==> local in parent.children
    ensures r.Success? ==>
      && r.value.child == build(Qualified(parent.name, local), parent.visualizer, parent.debug)
      && r.value.parent.children == parent.children[local := r.value.child]
      && r.value.parent.(children := parent.children) == parent
  {
    if local in parent.children then Failure(DuplicateName)
    else
      var child := build(Qualified(parent.name, local), parent.visualizer, parent.debug);
      Success(Registered(parent.(children := parent.children[local := child]), child))
  }

  /** With the corrected guard, registering the same local name twice under
      one parent always fails, while each success grows the table by one
      and keeps every earlier submodule. */
  lemma {:induction false} RegisterChildKeepsEarlier(parent: Node, build: Factory, build2: Factory, local: string)
    requires RegisterChild(parent, build, local).Success?
    ensures var p' := RegisterChild(parent, build, local).value.parent;
      && |p'.children| == |parent.children| + 1
      && (forall k :: k in parent.children ==> k in p'.children && p'.children[k] == parent.children[k])
      && RegisterChild(p', build2, local).Failure?
  {
  }

  /** `__call__`: advance this module's generator by one yield. A
      `StopIteration` escapes when the pass is exhausted; otherwise only the
      generator changes. */
  function Call(n: Node): (r: Result<(bool, Node), StepError>)
    ensures r.Success? <==> Step(n.gen).Success?
    ensures r.Success? ==>
      && r.value.0 == n.gen.pass[n.gen.cursor]
      && r.value.1 == n.(gen := Step(n.gen).value.1)
  {
    var s := Step(n.gen);
    if s.Failure? then Failure(s.error) else Success((s.value.0, n.(gen := s.value.1)))
  }

  /** A module built with the default `execute` answers `False` to every
      call and is left exactly as it was. */
  lemma {:induction false} DefaultModuleIdles(name: string, caps: map<string, Capability>, visualizer: bool, debug: bool)
    ensures var n := NewModule(name, caps, DefaultPass, visualizer, debug);
      Call(n) == Success((false, n))
  {
  }
}
