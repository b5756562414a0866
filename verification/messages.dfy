/** Request and response envelopes (`RouterMsg`, `RouterMsgResponse`) and
    the two message entry points of `Module`: building the request in
    `send`, and answering it in `receive`. The router that carries messages
    between modules is not part of this model. */
module Messages {
  import opened Wrappers
  import opened Paths
  import opened Nodes
  import opened Dispatch

  /** A request: sender, addressee, path within the addressee, arguments. */
  datatype Message<A> = Message(from: string, to: string, path: string, args: A)

  /** A reply: `data` is `None` when nothing callable was found. */
  datatype Response<V> = Response(from: string, to: string, data: Option<V>)

  /** The request `send` hands to `router.broadcast`: from this module,
      with a direct method reference rewritten exactly as `manual_call`
      rewrites it. */
  function Send<A>(n: Node, to: string, p: PathArg, args: A): (m: Message<A>)
    ensures m.from == n.name && m.to == to && m.args == args
    ensures p.Text? ==> m.path == p.path
    ensures p.MethodRef? && IsRoot(p.owner) ==> m.path == "/" + p.member
    ensures p.MethodRef? && !IsRoot(p.owner) ==>
      RootName(p.owner) + "/" + m.path == p.owner + "/" + p.member
  {
    Message(n.name, to, Canonical(p), args)
  }

  /** Records that `send` and `manual_call` share one rewrite of a direct
      reference (both are `Canonical`), so a module dispatching the
      request's path string gets the same result as `manual_call` given the
      reference itself. This holds by definition; it is not a derived fact. */
  lemma SendUsesCallRewrite<A, V>(n: Node, to: string, p: PathArg, args: A,
                                  q: Node, checkExposed: bool, invoke: Invoker<A, V>)
    ensures ManualCall(q, Send(n, to, p, args).path, args, checkExposed, invoke) ==
      ManualCallArg(q, p, args, checkExposed, invoke)
  {
  }

  /** `receive`: answer from this module to the sender, carrying the result
      of `manual_call` on the request's path with exposure enforced, which
      is the result of an unchecked call in the tree stripped of its
      unexposed capabilities. */
  function Receive<A, V>(n: Node, msg: Message<A>, invoke: Invoker<A, V>): (r: Response<V>)
    ensures r.from == n.name && r.to == msg.from
    ensures r.data == ManualCall(ExposedView(n), msg.path, msg.args, false, invoke)
    ensures r.data.Some? ==> r.data == ManualCall(n, msg.path, msg.args, false, invoke)
  {
    EnforcedIsExposedView(n, Split(msg.path));
    EnforcedOnlyHides(n, Split(msg.path));
    Response(n.name, msg.from, ManualCall(n, msg.path, msg.args, true, invoke))
  }

  /** Message round trip: module `p` sends module `q` (the root of a
      well-named tree) a direct reference to an exposed method of one of
      `q`'s submodules; when the request is delivered to `q`, the reply
      swaps sender and addressee and carries that method's result. */
  lemma MessageRoundTrip<A, V>(p: Node, q: Node, chain: seq<string>, op: string,
                               args: A, invoke: Invoker<A, V>)
    requires IsRoot(q.name) && WellNamed(q)
    requires |chain| >= 1 && SlashFree(chain + [op])
    requires Descend(q, chain).Some?
    requires op !in Descend(q, chain).value.children
    requires op in Descend(q, chain).value.caps && Descend(q, chain).value.caps[op].exposed
    ensures var owner := Descend(q, chain).value;
      var msg := Send(p, q.name, MethodRef(owner.name, op), args);
      var resp := Receive(q, msg, invoke);
      && resp.from == msg.to && resp.to == msg.from
      && resp.data == invoke(owner.name, owner.caps[op].op, args)
  {
    MethodRefFromRoot(q, chain, op, args, true, invoke);
  }
}
