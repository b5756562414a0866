# torchfed `Module` core, modelled in Dafny

This project models the base class `Module` of torchfed
(`torchfed/modules/module.py`): the tree of modules that a federated-learning
run is built from. Each module has a slash-separated hierarchical name
(`root/child/grandchild`), a routing table of submodules keyed by local name,
and methods. Some methods are marked `exposed` and may be called by other
modules through the router. The model covers:

- **name utilities** (`is_root`, `get_root_name`, `get_path`) over a faithful
  model of Python's `str.split("/")` and `"/".join(...)` — module `Paths`;
- **the module tree and submodule registration** (`register_submodule`,
  the base constructor, `__call__`) — module `Nodes`;
- **path resolution and capability dispatch** (`manual_call`, and the
  rewrite of a direct method reference into a path string) — module
  `Dispatch`;
- **request/response envelopes** (`send`, `receive`) — module `Messages`;
- **the stepping engine** (`execute` as a generator, restarted after a
  `False`) — module `Stepping`.

Python's reflective method lookup (`hasattr`/`getattr`/`callable` plus the
`exposed` attribute) is replaced by an explicit capability table on each
node: name ↦ `Capability(exposed, op)`. Running a capability is a function
parameter `invoke(owner, op, args)` whose body is not modelled, so
`manual_call`'s result is exactly "the resolved capability applied to the
arguments". A module constructor is a function parameter
`build(qualifiedName, visualizer, debug)`. The `execute` generator is the
sequence of booleans one pass yields plus a cursor, and every pass is
taken to yield the same sequence. `StopIteration` and the
registration exception are `Failure` values of a `Result`.

Behaviour of the code as written that a caller may not expect:

- The duplicate guard of `register_submodule` looks up the qualified name
  `parent/local` in a table keyed by local names. So re-registering a local
  name silently replaces the earlier submodule. The guard raises only when
  some local key happens to equal `parent/local`. See "Findings".
- An empty path does not delegate to anything by itself: its first segment
  is `""`, which resolves only if `""` is a routing-table key or a capability.
  Likewise a path naming only a submodule (`"B"`) hands that submodule `""`.
- Empty segments and slashes inside local names are not rejected anywhere.
- A direct reference to a method of a ROOT module is rewritten to
  `"/" + name`, whose first segment is empty. Dispatching it yields `None`
  unless `""` is a key or a capability (`Dispatch.RootMethodRefMisses`).
- A pass of `execute` that ends without yielding `False` lets
  `StopIteration` escape from `__call__`; it does not restart.
- After the capability segment, any further path segments are ignored
  (`Dispatch.ManualCallAlongChain` allows arbitrary trailing segments).

## Model

| member | source | states |
|---|---|---|
| `Paths.Split` | torchfed/modules/module.py:106 | splitting on `/` always gives at least one segment, and no segment contains a slash |
| `Paths.JoinSplit` | torchfed/modules/module.py:144-148 | re-joining the segments of any string with `/` gives the string back |
| `Paths.SplitJoin` | torchfed/modules/module.py:106-111 | splitting the join of a non-empty list of slash-free segments gives the list back; so the remainder `manual_call` re-joins is split again into the same segments |
| `Paths.SplitAtFirst` | torchfed/modules/module.py:106-107 | for a slash-free `a`, the path `a/b` pops `a` as its first segment and leaves exactly `b` as the remainder, whatever `b` is |
| `Paths.IsRoot` | torchfed/modules/module.py:141-142 | `is_root` holds exactly when splitting the name on `/` gives a single segment |
| `Paths.RootName` | torchfed/modules/module.py:144-145 | `get_root_name` never contains a slash; a root is its own root name; any other name is its root name, a slash, and the rest of the name |
| `Paths.RelPath` | torchfed/modules/module.py:147-148 | `get_path` of a root is `""`; any other name is its first segment, a slash, and its path |
| `Paths.NameUtilities` | torchfed/modules/module.py:141-148 | `is_root` holds iff the name is one segment; a root is its own root name and has path `""`; any other name equals root name + `/` + path; the root name never contains a slash |
| `Paths.RootNameOfExtension` | torchfed/modules/module.py:61 | appending `/local` to a name never changes its root segment |
| `Nodes.NewModule` | torchfed/modules/module.py:18-34 | a new module carries the given name, flags and capability table, has an empty routing table (so is well named), and holds a generator at the start of a pass |
| `Nodes.DescendName` | torchfed/modules/module.py:61-71 | in a tree built by registration, the module reached by a chain of keys is named top name + `/` + the chain joined with `/`, and its subtree is well named |
| `Nodes.RegisterSubmodule` | torchfed/modules/module.py:60-72 | raises exactly when `parent/local` is already a KEY of the routing table; otherwise builds the child with the qualified name and the parent's flags, stores it under the LOCAL name, keeps every other entry and changes nothing else in the parent |
| `Nodes.ChildNamedUnderParent` | torchfed/modules/module.py:60-72 | with a constructor that goes through `Module.__init__`, the registered child is named `parent/local`, has the parent's root name, and inherits `visualizer` and `debug` |
| `Nodes.RegisterPreservesShape` | torchfed/modules/module.py:60-72 | registration keeps every submodule named after its parent and its key, and keeps the flags inherited throughout the tree |
| `Nodes.DuplicateLocalNameReplaces` | torchfed/modules/module.py:61-71 | registering a local name that is already a key (while `parent/local` is not) succeeds, replaces the earlier submodule and does not grow the table |
| `Nodes.GuardCounterexamples` | torchfed/modules/module.py:61-64 | under a parent `p`, registering `a` twice succeeds both times; with only a key `p/a` present, registering `a` raises |
| `Nodes.RegisterChild` | torchfed/modules/module.py:61-64 | corrected guard: raises exactly when the local name is already a key; otherwise adds the child under it and changes nothing else |
| `Nodes.RegisterChildKeepsEarlier` | torchfed/modules/module.py:61-64 | with the corrected guard, a success grows the table by one and keeps every earlier submodule, and registering the same local name again fails |
| `Nodes.Call` | torchfed/modules/module.py:48-52 | `__call__` fails with `StopIteration` exactly when the generator is exhausted; otherwise it returns the next yield and changes only the generator |
| `Nodes.DefaultModuleIdles` | torchfed/modules/module.py:57-58 | a module with the default `execute` answers `False` and is left unchanged |
| `Stepping.Step` | torchfed/modules/module.py:48-52 | one call returns the yield at the cursor; `True` advances the cursor by one; `False` replaces the generator by a fresh one; an exhausted generator raises |
| `Stepping.StepPreservesLive` | torchfed/modules/module.py:48-52 | a generator positioned before a `False` never raises and stays positioned before a `False` |
| `Stepping.RunToRestart` | torchfed/modules/module.py:48-52 | from any point before the first `False`, calling until that `False` returns the rest of the pass up to it and leaves a fresh generator |
| `Stepping.RunRepeatsCycle` | torchfed/modules/module.py:48-52 | driven from a fresh generator, calls return the pass up to its first `False` over and over, and the generator is fresh again after each cycle |
| `Stepping.RunWithoutFalseStops` | torchfed/modules/module.py:49 | a pass with no `False` returns `True` once per yield and the next call raises `StopIteration` |
| `Stepping.DefaultExecuteIdles` | torchfed/modules/module.py:57-58 | with the default `execute`, any number of calls all return `False` and the generator stays fresh |
| `Stepping.ThreeStepPassRestarts` | torchfed/modules/module.py:48-52 | for the pass `True, True, False`, four calls return `True, True, False, True`: the fourth starts a new pass |
| `Dispatch.ManualCall` | torchfed/modules/module.py:102-120 | for every path, the result is that of applying, once and with the arguments unchanged, the capability that resolution over the split segments selects (`None` when none is selected) |
| `Dispatch.ResolveAlongChain` | torchfed/modules/module.py:106-120 | following routing-table keys and then a segment that is not a key of the module reached selects that module's capability, whatever segments follow |
| `Dispatch.ResolveEndsAtChild` | torchfed/modules/module.py:106-111 | a path that runs out at a submodule resolves as that submodule's empty path |
| `Dispatch.ManualCallAlongChain` | torchfed/modules/module.py:106-120 | `manual_call` on `B/C/.../x/...` descends through the submodules and calls capability `x` of the module reached if allowed, dropping later segments |
| `Dispatch.PathRoundTrip` | torchfed/modules/module.py:109-119 | an exposed capability at the end of a path of submodule keys is invoked with the given arguments and its result is returned unchanged, under either flag |
| `Dispatch.ExposureGating` | torchfed/modules/module.py:112-119 | an unexposed capability yields `None` when exposure is checked and its own result when it is not |
| `Dispatch.UnknownSegmentIsAbsent` | torchfed/modules/module.py:109-120 | a segment that is neither a key nor a capability of the module reached yields `None`, never an error |
| `Dispatch.ChildPrecedence` | torchfed/modules/module.py:106-111 | when the first segment is a routing-table key, the call is exactly the child's call on the rest of the path with the same flag, even if a capability has the same name |
| `Dispatch.ChildAloneGetsEmptyPath` | torchfed/modules/module.py:106-111 | a path that is only a submodule key hands that submodule the empty path |
| `Dispatch.EnforcedIsExposedView` | torchfed/modules/module.py:102-120 | checking exposure gives the same resolution as not checking it in the tree with every unexposed capability removed |
| `Dispatch.EnforcedOnlyHides` | torchfed/modules/module.py:114-119 | whenever the checked call selects a capability, the unchecked call selects the same one |
| `Dispatch.Canonical` | torchfed/modules/module.py:103-104 | a reference to a method of a non-root owner becomes the path that, prefixed by the owner's root name, is the method's full name; for a root owner it becomes `"/" + method` |
| `Dispatch.ManualCallArg` | torchfed/modules/module.py:102-120 | a string path is dispatched as is; a reference to a method of a non-root owner is dispatched as the owner's path, a slash and the method name; a reference to a root's own method yields `None` unless `""` is a key or capability; `Dispatch.MethodRefFromRoot` shows it reaches the owner's capability from the root |
| `Dispatch.MethodRefFromRoot` | torchfed/modules/module.py:103-111 | dispatched from the root of a well-named tree, a direct reference to a method of a submodule equals the string path to it and reaches that submodule's capability |
| `Dispatch.RootMethodRefMisses` | torchfed/modules/module.py:103-112 | a direct reference to a method of the root itself yields `None` unless `""` is a key or a capability of the root |
| `Messages.Send` | torchfed/modules/module.py:74-77 | the request is from this module, to the given addressee, with the arguments unchanged and a direct reference rewritten as in `manual_call` |
| `Messages.SendUsesCallRewrite` | torchfed/modules/module.py:75-76 | records that `send` and `manual_call` (line 104) apply one and the same rewrite, so dispatching the request's path string gives the same result as `manual_call` given the direct reference; true by definition |
| `Messages.Receive` | torchfed/modules/module.py:80-100 | the reply is from this module to the request's sender, and carries the result of dispatching the path in the tree stripped of unexposed capabilities, which agrees with unchecked dispatch whenever present |
| `Messages.MessageRoundTrip` | torchfed/modules/module.py:74-93 | a direct reference to an exposed submodule method sent to the root gets a reply with sender and addressee swapped whose data is that method's result |

## Left out

- `get_visualizer` and `__del__` (lines 122-139, 150-152): directory creation, the visdom client and its connection errors are I/O.
- `__post__init__` and `log_hp` (lines 36-55): table formatting and logging only; the `PostInitCaller` metaclass that calls them is not part of this model.
- Logger calls in `receive` and `register_submodule`: they have no effect on results.
- `router.register` (line 32) and `router.broadcast` (line 78): the router is external, and its source is not part of this model.
- Messages.Send: models the request `send` builds; the router's reply that `send` returns is not modelled, because `broadcast` is external.
- Reflection on attributes that are not capabilities: with `check_exposed=False`, Python also reaches plain methods such as `send` or `manual_call` by name. The model reaches only the capability table.
- The arguments and the bodies of capabilities are uninterpreted: `invoke(owner, op, args)` stands for calling the bound method. A capability that itself returns `None` looks, to the caller, like a path that was not found; the model allows this through `Option`.
- Stepping.Step: every restarted pass is assumed to yield the same booleans as the first. In the code, line 51 calls the subclass's `execute()` again, and what a new pass yields may depend on module state changed meanwhile (a round counter, received messages). `Stepping.RunRepeatsCycle`, `Stepping.ThreeStepPassRestarts` and `Stepping.DefaultExecuteIdles` rely on this.
- Dispatch.ManualCall: a capability that raises (its body fails, or `args` does not unpack to its parameters) propagates the exception out of `manual_call` and `receive`, and no response is built. The model's `invoke` always returns an `Option`, so `Dispatch.ManualCall` and `Messages.Receive` are total and this error path is not modelled.
- Messages.Receive: always builds a response; a raising capability, which in the code escapes `receive`, is not modelled (see the line above).
- Code run by `execute` between yields: only the yielded booleans are modelled.
- Object aliasing: Python stores a reference to the child, so later changes to the child show through the parent. The tree here is an immutable value; the submodules a child's own constructor registers are part of what `build` returns.
- Nodes.ChildNamedUnderParent: assumes the constructor passes the name and flags to `Module.__init__` and names its own submodules by registration (`Nodes.Conforming`); a subclass could do otherwise.

## Findings

| source | as written | input that shows it | evidently intended | confidence | as-written member | corrected member |
|---|---|---|---|---|---|---|
| torchfed/modules/module.py:61-64 | the guard tests `f"{self.name}/{name}"` against `routing_table`, whose keys are local names (line 71) | parent `p`: registering `a` twice succeeds and replaces the first child; with a key `p/a` present, registering `a` raises although `a` is free | raise exactly when `name` is already a key, as the message "Cannot register modules with the same name" says | high; not executed | `Nodes.RegisterSubmodule`, shown by `Nodes.GuardCounterexamples` and `Nodes.DuplicateLocalNameReplaces` | `Nodes.RegisterChild`, proved by `Nodes.RegisterChildKeepsEarlier` |

The rest of this model follows the code as written, so `Nodes.RegisterSubmodule` stays the model of `register_submodule`. `Nodes.RegisterChild` is the corrected registration that a caller relying on the uniqueness guarantee would use.
