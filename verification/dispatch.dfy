/** Path resolution and capability dispatch: `Module.manual_call`, and the
    rewrite of a direct method reference into a path string that both
    `manual_call` and `send` perform. */
module Dispatch {
  import opened Wrappers
  import opened Paths
  import opened Nodes

  /** The capability a path resolves to: the module that owns it (by name)
      and the implementation to run. */
  datatype Target = Target(owner: string, op: OpId)

  /** Running a capability: the owner's name, the implementation and the
      arguments determine the value returned; the bodies themselves are
      not modelled. */
  type Invoker<!A, V> = (string, OpId, A) -> Option<V>

  /** The capability step of `manual_call`: `target` names a capability of
      `n` that may be called, i.e. exposure is not checked or the capability
      is marked exposed. */
  function Lookup(n: Node, target: string, checkExposed: bool): Option<Target>
  {
    if target in n.caps && (!checkExposed || n.caps[target].exposed) then
      Some(Target(n.name, n.caps[target].op))
    else None
  }

  /** Calling the resolved capability, if any, with the arguments as given. */
  function Apply<A, V>(t: Option<Target>, args: A, invoke: Invoker<A, V>): Option<V>
  {
    match t
    case None => None
    case Some(Target(owner, op)) => invoke(owner, op, args)
  }

  /** Resolution on the list of segments of a path, without re-joining and
      re-splitting strings: a first segment naming a submodule takes
      precedence and the rest of the list goes to that submodule (an empty
      rest becomes the single empty segment); otherwise the first segment is
      looked up as a capability and the remaining segments are ignored. */
  function Resolve(n: Node, segs: seq<string>, checkExposed: bool): Option<Target>
    requires |segs| >= 1
    decreases n
  {
    if segs[0] in n.children then
      Resolve(n.children[segs[0]], if |segs| == 1 then [""] else segs[1..], checkExposed)
    else Lookup(n, segs[0], checkExposed)
  }

  /** `manual_call(path, args, check_exposed)`: split the path, pop the first
      segment; a routing-table key wins and the re-joined remainder is passed
      to that submodule with the same flag; otherwise a callable capability
      of that name is invoked with `args` if allowed; otherwise `None`.
      Whatever the path, the result is that of calling the capability the
      segment-level resolution picks, exactly once, with `args` unchanged. */
  function ManualCall<A, V>(n: Node, path: string, args: A, checkExposed: bool,
                            invoke: Invoker<A, V>): (r: Option<V>)
    ensures r == Apply(Resolve(n, Split(path), checkExposed), args, invoke)
    decreases n
  {
    var segs := Split(path);
    var target := FirstSegment(path);
    if target in n.children then
      var rest := RestPath(path);
      assert Split(rest) == if |segs| == 1 then [""] else segs[1..] by {
        if |segs| >= 2 { SplitJoin(segs[1..]); }
      }
      ManualCall(n.children[target], rest, args, checkExposed, invoke)
    else Apply(Lookup(n, target, checkExposed), args, invoke)
  }

  /** Following a chain of submodule keys and then a segment that is not a
      key of the module reached, resolution lands on that module's
      capability lookup, whatever segments come after. */
  lemma {:induction false} ResolveAlongChain(n: Node, chain: seq<string>, x: string,
                                             rest: seq<string>, checkExposed: bool)
    requires Descend(n, chain).Some?
    requires x !in Descend(n, chain).value.children
    ensures Resolve(n, chain + [x] + rest, checkExposed) ==
      Lookup(Descend(n, chain).value, x, checkExposed)
    decreases |chain|
  {
    var segs := chain + [x] + rest;
    if |chain| == 0 {
      assert segs[0] == x;
    } else {
      assert segs[0] == chain[0];
      assert segs[1..] == chain[1..] + [x] + rest;
      ResolveAlongChain(n.children[chain[0]], chain[1..], x, rest, checkExposed);
    }
  }

  /** A path that runs out exactly at a submodule hands that submodule the
      empty path. */
  lemma {:induction false} ResolveEndsAtChild(n: Node, chain: seq<string>, checkExposed: bool)
    requires |chain| >= 1 && Descend(n, chain).Some?
    ensures Resolve(n, chain, checkExposed) == Resolve(Descend(n, chain).value, [""], checkExposed)
    decreases |chain|
  {
    if |chain| >= 2 {
      ResolveEndsAtChild(n.children[chain[0]], chain[1..], checkExposed);
    }
  }

  /** `manual_call` on the path `B/C/.../x/...`: descend through the
      submodules named by the chain, then call the capability `x` of the
      module reached (if allowed), dropping any later segments. */
  lemma ManualCallAlongChain<A, V>(n: Node, chain: seq<string>, x: string, rest: seq<string>,
                                   args: A, checkExposed: bool, invoke: Invoker<A, V>)
    requires SlashFree(chain + [x] + rest)
    requires Descend(n, chain).Some?
    requires x !in Descend(n, chain).value.children
    ensures ManualCall(n, Join(chain + [x] + rest), args, checkExposed, invoke) ==
      Apply(Lookup(Descend(n, chain).value, x, checkExposed), args, invoke)
  {
    SplitJoin(chain + [x] + rest);
    ResolveAlongChain(n, chain, x, rest, checkExposed);
  }

  /** Path round trip: an exposed capability `op` of the module reached by
      `chain` is invoked exactly once with the given arguments, and its
      result comes back unchanged, whether or not exposure is enforced. */
  lemma PathRoundTrip<A, V>(n: Node, chain: seq<string>, op: string, args: A,
                            checkExposed: bool, invoke: Invoker<A, V>)
    requires SlashFree(chain + [op])
    requires Descend(n, chain).Some?
    requires op !in Descend(n, chain).value.children
    requires op in Descend(n, chain).value.caps && Descend(n, chain).value.caps[op].exposed
    ensures ManualCall(n, Join(chain + [op]), args, checkExposed, invoke) ==
      invoke(Descend(n, chain).value.name, Descend(n, chain).value.caps[op].op, args)
  {
    assert chain + [op] + [] == chain + [op];
    ManualCallAlongChain(n, chain, op, [], args, checkExposed, invoke);
  }

  /** Exposure gating: a capability without the `exposed` marker yields
      `None` when exposure is enforced, and is invoked with its result
      returned unchanged when it is not. */
  lemma ExposureGating<A, V>(n: Node, chain: seq<string>, op: string, args: A, invoke: Invoker<A, V>)
    requires SlashFree(chain + [op])
    requires Descend(n, chain).Some?
    requires op !in Descend(n, chain).value.children
    requires op in Descend(n, chain).value.caps && !Descend(n, chain).value.caps[op].exposed
    ensures ManualCall(n, Join(chain + [op]), args, true, invoke) == None
    ensures ManualCall(n, Join(chain + [op]), args, false, invoke) ==
      invoke(Descend(n, chain).value.name, Descend(n, chain).value.caps[op].op, args)
  {
    assert chain + [op] + [] == chain + [op];
    ManualCallAlongChain(n, chain, op, [], args, true, invoke);
    ManualCallAlongChain(n, chain, op, [], args, false, invoke);
  }

  /** A segment that is neither a submodule key nor a capability of the
      module reached gives `None`, with or without exposure checks. */
  lemma UnknownSegmentIsAbsent<A, V>(n: Node, chain: seq<string>, x: string, rest: seq<string>,
                                     args: A, checkExposed: bool, invoke: Invoker<A, V>)
    requires SlashFree(chain + [x] + rest)
    requires Descend(n, chain).Some?
    requires x !in Descend(n, chain).value.children && x !in Descend(n, chain).value.caps
    ensures ManualCall(n, Join(chain + [x] + rest), args, checkExposed, invoke) == None
  {
    ManualCallAlongChain(n, chain, x, rest, args, checkExposed, invoke);
  }

  /** Child precedence: when the first segment is a routing-table key, the
      call is exactly the submodule's call on the remainder of the path with
      the same flag, even if the module also has a capability of that name. */
  lemma ChildPrecedence<A, V>(n: Node, b: string, rest: string, args: A,
                              checkExposed: bool, invoke: Invoker<A, V>)
    requires '/' !in b && b in n.children
    ensures ManualCall(n, b + "/" + rest, args, checkExposed, invoke) ==
      ManualCall(n.children[b], rest, args, checkExposed, invoke)
  {
    SplitAtFirst(b, rest);
  }

  /** A path consisting of a submodule key alone hands that submodule the
      empty path, which resolves only if `""` is one of its keys or
      capabilities. */
  lemma ChildAloneGetsEmptyPath<A, V>(n: Node, b: string, args: A,
                                      checkExposed: bool, invoke: Invoker<A, V>)
    requires '/' !in b && b in n.children
    ensures ManualCall(n, b, args, checkExposed, invoke) ==
      ManualCall(n.children[b], "", args, checkExposed, invoke)
  {
    SplitNoSlash(b);
  }

  /** The tree with every capability that lacks the `exposed` marker
      removed. */
  function ExposedView(n: Node): (v: Node)
    ensures v.name == n.name && v.children.Keys == n.children.Keys
    ensures forall k :: k in n.children ==> v.children[k] == ExposedView(n.children[k])
    ensures forall k :: k in v.caps ==> k in n.caps && v.caps[k] == n.caps[k] && v.caps[k].exposed
    ensures forall k :: k in n.caps && n.caps[k].exposed ==> k in v.caps
    decreases n
  {
    n.(children := map k | k in n.children :: ExposedView(n.children[k]),
       caps := map k | k in n.caps && n.caps[k].exposed :: n.caps[k])
  }

  /** Enforcing exposure is the same as dispatching without checks in the
      tree where unexposed capabilities have been removed. */
  lemma {:induction false} EnforcedIsExposedView(n: Node, segs: seq<string>)
    requires |segs| >= 1
    ensures Resolve(n, segs, true) == Resolve(ExposedView(n), segs, false)
    decreases n
  {
    if segs[0] in n.children {
      var rest := if |segs| == 1 then [""] else segs[1..];
      EnforcedIsExposedView(n.children[segs[0]], rest);
    }
  }

  /** Exposure checks only ever hide a result: when the enforced call
      yields a value, the unchecked call yields the same value. */
  lemma {:induction false} EnforcedOnlyHides(n: Node, segs: seq<string>)
    requires |segs| >= 1
    ensures Resolve(n, segs, true).Some? ==> Resolve(n, segs, true) == Resolve(n, segs, false)
    decreases n
  {
    if segs[0] in n.children {
      var rest := if |segs| == 1 then [""] else segs[1..];
      EnforcedOnlyHides(n.children[segs[0]], rest);
    }
  }

  /** The `path` argument: a string, or a direct reference to method
      `member` of the module named `owner` (a bound method in Python). */
  datatype PathArg = Text(path: string) | MethodRef(owner: string, member: string)

  /** The rewrite of a direct method reference: the owner's name with its
      root segment stripped, a slash, and the method name. For an owner
      below the root this is the method's full name relative to the root;
      for a root owner it is `"/" + method`, whose first segment is empty. */
  function Canonical(p: PathArg): (s: string)
    ensures p.Text? ==> s == p.path
    ensures p.MethodRef? && !IsRoot(p.owner) ==>
      RootName(p.owner) + "/" + s == p.owner + "/" + p.member
    ensures p.MethodRef? && IsRoot(p.owner) ==> s == "/" + p.member
  {
    match p
    case Text(s) => s
    case MethodRef(owner, m) =>
      NameUtilities(owner);
      RelPath(owner) + "/" + m
  }

  /** `manual_call` with a path argument that may be a direct reference. */
  function ManualCallArg<A, V>(n: Node, p: PathArg, args: A, checkExposed: bool,
                               invoke: Invoker<A, V>): (r: Option<V>)
    ensures p.Text? ==> r == ManualCall(n, p.path, args, checkExposed, invoke)
    ensures p.MethodRef? && !IsRoot(p.owner) ==>
      r == ManualCall(n, RelPath(p.owner) + "/" + p.member, args, checkExposed, invoke)
    ensures p.MethodRef? && IsRoot(p.owner) && "" !in n.children && "" !in n.caps ==> r == None
  {
    var m := if p.MethodRef? then p.member else "";
    assert "" + "/" + m == "/" + m;
    SplitAtFirst("", m);
    ManualCall(n, Canonical(p), args, checkExposed, invoke)
  }

  /** A direct reference, dispatched from the root of a well-named tree, to
      a method of a module below the root behaves exactly like the string
      path of that method: it reaches the owner's capability. */
  lemma MethodRefFromRoot<A, V>(root: Node, chain: seq<string>, m: string, args: A,
                                checkExposed: bool, invoke: Invoker<A, V>)
    requires IsRoot(root.name) && WellNamed(root)
    requires |chain| >= 1 && SlashFree(chain + [m])
    requires Descend(root, chain).Some?
    requires m !in Descend(root, chain).value.children
    ensures var owner := Descend(root, chain).value;
      ManualCallArg(root, MethodRef(owner.name, m), args, checkExposed, invoke) ==
      ManualCall(root, Join(chain + [m]), args, checkExposed, invoke) ==
      Apply(Lookup(owner, m, checkExposed), args, invoke)
  {
    var owner := Descend(root, chain).value;
    DescendName(root, chain);
    SplitAtFirst(root.name, Join(chain));
    JoinSnoc(chain, m);
    assert Canonical(MethodRef(owner.name, m)) == Join(chain + [m]);
    assert chain + [m] + [] == chain + [m];
    ManualCallAlongChain(root, chain, m, [], args, checkExposed, invoke);
  }

  /** A direct reference to a method of the ROOT module itself becomes
      `"/" + m`; its first segment is empty, so unless `""` is a submodule
      key or a capability of the root, the call yields `None` even when the
      root has an exposed capability `m`. */
  lemma {:induction false} RootMethodRefMisses<A, V>(root: Node, m: string, args: A,
                                  checkExposed: bool, invoke: Invoker<A, V>)
    requires IsRoot(root.name)
    requires "" !in root.children && "" !in root.caps
    ensures ManualCallArg(root, MethodRef(root.name, m), args, checkExposed, invoke) == None
  {
  }
}
