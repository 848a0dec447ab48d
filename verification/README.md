# Plugin layer of the mous audio engine, in Dafny

This project models two pieces of the plugin layer of the mous player/converter:

- **The plugin agent** (`core/PluginAgent.h`). It wraps one dynamically loaded plugin
  library. It holds a library handle, three entry points (get-info, create, release), the
  plugin object that `create` returned, and a category. The model is an immutable
  `Agent` record. `Open` and `Close` are pure transitions on it. Whatever `dlopen`,
  `dlsym` and the plugin's create function return is an input (`LoadOutcome`). The native
  side effects (library attached or detached, object created or released) are returned
  as a log. Two counters over that log, `LiveHandles` and `LiveInstances`, stand for the
  number of live native resources.
- **The conversion-task factory** (`core/ConvTaskFactory.cpp`). It keeps two registries:
  - a decoder map from file suffix to the decoder agents registered for it, in order;
  - an encoder map from encoder name to one encoder agent.

  It also assembles a conversion task from the first decoder for a file's suffix and the
  encoder of the requested name. Agents are `AgentRef` values: an identity plus the
  attributes the factory reads from them (category, declared suffixes, info name). The
  object that each `CreateObject` call returns is an input. A `CreateTask` result reports
  the objects it created and the objects it freed.

Files:

- `plugin_def.dfy`: plugin categories, error codes, and a nullable `Option`.
- `plugin_agent.dfy`: the agent state machine.
- `buckets.dfy`: operations on decoder buckets (erase the first occurrence of an agent, append copies).
- `string_order.dfy`: the key order of `std::map<std::string, …>` and the least key (`begin()`).
- `conv_task_factory.dfy`: the registries, registration, `CreateTask`, `GetEncoderNames`, `UnregisterAll`.

Three behaviours of the code that the model keeps:

- `AddEncAgent` uses `std::map::insert`, so the first encoder registered under a name keeps it.
- A failed `Open` does not roll back: the handle and the entry points bound before the failing step stay set.
- `GetEncoderNames` returns the names in ascending key order.

## Model

| member | source | states |
|---|---|---|
| `PluginAgent.NewAgent` | core/PluginAgent.h:31-40 | a new agent has the given category and every native slot null |
| `PluginAgent.Open` | core/PluginAgent.h:52-75 | Ok exactly when dlopen yields a handle, get-info and create resolve and create returns an object (the release symbol plays no part); otherwise MgrBadFormat; no rollback: for each failure point the resulting agent is exactly the old one with the slots written up to that step (dlopen's result, then get-info, then create, then release and the plugin), every other slot keeping its old value; the category is untouched; the native effects are exactly the library attach when dlopen succeeds and the object creation on Ok |
| `PluginAgent.OpenIgnoresReleaseSymbol` | core/PluginAgent.h:66-68 | the code Open returns is the same whether or not the release symbol resolves |
| `PluginAgent.Close` | core/PluginAgent.h:77-93 | with release bound: release is called once with the plugin slot, and create, release, get-info and plugin are cleared; with release unbound: those slots keep their values; always: a held library is detached once, the handle becomes null and the category None |
| `PluginAgent.CloseIdempotent` | core/PluginAgent.h:77-93 | a second Close has no native effect and leaves the agent unchanged |
| `PluginAgent.GetInfo` | core/PluginAgent.h:95-98 | null when the get-info entry point is unbound; otherwise whatever that entry point returns, null included |
| `PluginAgent.GetInfoDanglesAfterFailedOpen` | core/PluginAgent.h:62-64 | a library without a create symbol: after the failed Open and a Close the library is detached while the get-info entry point stays bound, and GetInfo still calls it |
| `PluginAgent.PluginSlotLifecycle` | core/PluginAgent.h:100-108 | after a successful Open the plugin slot holds the created object; after Close it is null exactly when release was bound; Close leaves the category None |
| `PluginAgent.OpenCloseAccounting` | core/PluginAgent.h:52-93 | Open then Close on a fresh agent always detaches the library again, and leaves one object unreleased exactly when Open succeeded without a release symbol |
| `PluginAgent.OpenLeaksWithoutRelease` | core/PluginAgent.h:66-68 | a concrete library without a release symbol: Open returns Ok and the created object survives Close |
| `PluginAgent.OpenChecked` | core/PluginAgent.h:66-68 | with the release entry point tested, Ok also requires a release symbol, so a successful Open always leaves release bound; a missing release symbol fails with the plugin slot untouched |
| `PluginAgent.OpenCheckedCloseBalanced` | core/PluginAgent.h:52-93 | with the corrected test, Open then Close on a fresh agent leaves no library attached and no object alive, whatever the loader returns |
| `ConvTaskFactory.RegisterPluginAgent` | core/ConvTaskFactory.cpp:25-39 | an agent of any category other than Decoder or Encoder leaves both maps unchanged; a decoder is added to the decoder map only and an encoder to the encoder map only; the registry invariant (non-empty buckets of decoders that declare their suffix, encoders under their own name) is preserved |
| `ConvTaskFactory.UnregisterPluginAgent` | core/ConvTaskFactory.cpp:41-55 | a decoder is removed from the decoder map only and an encoder from the encoder map only; other categories change nothing; the registry invariant is preserved |
| `ConvTaskFactory.AddSuffixes` | core/ConvTaskFactory.cpp:125-136 | after the loop each suffix's bucket is its old bucket followed by as many copies of the agent as the suffix occurs in the list; the key set grows by exactly the listed suffixes |
| `ConvTaskFactory.AddDecAgent` | core/ConvTaskFactory.cpp:119-137 | each bucket becomes its old contents followed by one copy of the agent per declaration of the suffix; the agent is the last element of the bucket of every suffix it declares; a previously absent suffix declared once gets a one-element bucket; other suffixes' buckets are untouched; existing buckets keep their old contents as a prefix |
| `ConvTaskFactory.RemoveSuffixes` | core/ConvTaskFactory.cpp:145-160 | after the loop each declared suffix's bucket has lost the agent's first occurrence once per listing, and the suffix is gone exactly when that empties its bucket |
| `ConvTaskFactory.RemoveDecAgent` | core/ConvTaskFactory.cpp:139-161 | only the buckets of declared suffixes change, each only by erasing occurrences of the agent; a bucket left empty is erased, so non-empty buckets stay non-empty; no suffix is added |
| `ConvTaskFactory.RemoveDecAgentSplices` | core/ConvTaskFactory.cpp:149-158 | for a suffix declared once: the first occurrence of the agent is cut out and the others keep their order; a bucket without the agent is unchanged; a bucket holding only the agent is erased |
| `Buckets.RemoveFirst` | core/ConvTaskFactory.cpp:149-154 | the bucket loses exactly one copy of the agent when it holds one and nothing else: its multiset is the old one minus the agent |
| `ConvTaskFactory.RemoveSuffix` | core/ConvTaskFactory.cpp:146-158 | one pass of the loop: other suffixes are untouched; the suffix stays exactly when it was present and erasing the agent's first occurrence leaves its bucket non-empty, and then holds that shortened bucket |
| `Buckets.RemoveFirstSplices` | core/ConvTaskFactory.cpp:149-154 | erasing from a bucket removes exactly the first occurrence of the agent, or nothing when it is absent |
| `ConvTaskFactory.AddEncAgent` | core/ConvTaskFactory.cpp:163-166 | a taken name keeps its existing entry; a new name maps to the added agent; no other entry changes |
| `ConvTaskFactory.RemoveEncAgent` | core/ConvTaskFactory.cpp:168-173 | the entry under the agent's name is erased whichever agent owns it; other entries stay; an absent name changes nothing |
| `ConvTaskFactory.RegisterUnregisterRoundTrip` | core/ConvTaskFactory.cpp:25-55 | registering an agent not yet in any decoder bucket (and, for an encoder, whose name is free) and then unregistering it gives the factory back |
| `ConvTaskFactory.DecoderRoundTrip` | core/ConvTaskFactory.cpp:119-161 | adding then removing a decoder that is in no bucket gives the decoder map back |
| `ConvTaskFactory.FirstRegisteredWins` | core/ConvTaskFactory.cpp:92-95 | registering any further agent never changes the first decoder of an existing suffix, which is the one CreateTask uses |
| `ConvTaskFactory.FallbackAfterUnregister` | core/ConvTaskFactory.cpp:145-158 | unregistering the first decoder of a suffix leaves the rest of the bucket, so the next decoder becomes the one used |
| `ConvTaskFactory.UnregisterAll` | core/ConvTaskFactory.cpp:57-70 | afterwards both the decoder map and the encoder map are empty |
| `StringOrder.Below` | core/ConvTaskFactory.cpp:77-82 | the order the encoder map iterates its keys in: lexicographic by character, a proper prefix first; with `BelowIrreflexive`, `BelowTransitive` and `BelowTotal` it is a strict total order |
| `StringOrder.LeastKey` | core/ConvTaskFactory.cpp:60 | the key `begin()` points at: a member of the key set ordered before every other key |
| `ConvTaskFactory.GetEncoderNames` | core/ConvTaskFactory.cpp:72-85 | exactly the encoder map's keys, each once, in strictly ascending key order, as many as the map has entries |
| `ConvTaskFactory.CreateTask` | core/ConvTaskFactory.cpp:87-117 | a task exactly when a bucket exists for the item's suffix, an encoder exists under the name and both created objects are non-null; the task pairs the first decoder of the bucket with that encoder; on success the two objects are created and none freed; on every failure each object created is freed, by its creator, in creation order |

## Left out

- The suffix probe in `AddDecAgent` and `RemoveDecAgent` (core/ConvTaskFactory.cpp:121-123 and 141-143) creates a decoder object, reads its suffixes and frees it at once. The model reads the suffixes from `AgentRef.suffixes`. The probe's net effect on live objects is zero, and a null probe object is a null dereference in the code.
- `UnregisterAll`: the code walks the live bucket by index while `RemoveDecAgent` erases from it. That is defined but skips agents: for a bucket [A, B, C] it removes A and C, and B is not removed from its other buckets at that point. When `RemoveDecAgent` empties and deletes the bucket itself (core/ConvTaskFactory.cpp:155-157), the loop at line 62 and the delete at line 65 then use freed memory, which is undefined behaviour. The model iterates a copy of the bucket taken before the first removal, so it removes every agent of the bucket where the code skips some, and it states only the result, which both agree on: both maps empty.
- `PluginAgent.GetInfo`: after an `Open` that fails before the release lookup and a `Close`, the get-info entry point stays bound while its library is detached (`PluginAgent.GetInfoDanglesAfterFailedOpen`). The code then calls into an unloaded library; the model returns what `infoOf` says for that entry point and does not model the crash.
- `CreateTask` dereferences `item` before its null check. The model takes a non-null item. The suffix helper `FileHelper::FileSuffix` is not part of this model; it is a function parameter.
- `CreateTask` requires non-empty decoder buckets, which the code relies on when it reads `list[0]`. `IConvTask::Create` is assumed to return a task.
- `AddEncAgent` and `RemoveEncAgent` dereference `GetInfo()` without a null check. The model reads the name from `AgentRef.name`.
- `dlopen` flags, symbol names and `dlerror` are left out. `dlopen`, `dlsym`, `dlclose`, the plugin's create and release functions and `CreateObject`/`FreeObject` are foreign calls. Their results are inputs and their effects are logged.
- The factory's own `Create`/`Free` and its destructor (core/ConvTaskFactory.cpp:5-23) only allocate, free and call `UnregisterAll`.
- `PluginAgent.GetType` and `PluginAgent.GetPlugin` (`GetVpPlugin`/`GetPlugin`) only read a slot. `PluginAgent.NewAgent` and `PluginAgent.PluginSlotLifecycle` state their behaviour.
- The command-line front end, the ncurses server, the Qt dialog, the player, the tag-parser factory, the plugin manager and the decoder function table are not part of this model. They are I/O, concurrency, interface declarations or a C function table.
- String keys are compared character by character. `std::string` compares bytes as unsigned values, which is the same order for the code points a byte string denotes.

## Findings

| source | as written | input that shows it | evidently intended | confidence | as-written member | corrected member |
|---|---|---|---|---|---|---|
| core/PluginAgent.h:66-68 | after looking up the release symbol, the code tests the create entry point, which is already known non-null | a library that exports get-info and create but not release, and whose create returns an object: `Open` returns Ok with release unbound, and `Close` then neither releases the object nor clears the plugin slot | test the release entry point and return MgrBadFormat when it is missing | high; not executed | `PluginAgent.Open`, `PluginAgent.OpenLeaksWithoutRelease` | `PluginAgent.OpenChecked`, `PluginAgent.OpenCheckedCloseBalanced` |
