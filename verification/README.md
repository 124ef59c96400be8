# `wwctl profile set` — a Dafny model of the profile mutation engine

This project models the `profile set` command of Warewulf's `wwctl` tool
(`CobraRunE` in `internal/app/wwctl/profile/set/main.go`): how the command
chooses the target profiles, how one request of flag values is applied to
each profile, and when the node database is persisted. Everything is pure
functions over immutable values:

- `Node` — the profile record: overridable entries (`None` = unset), the
  kernel and IPMI groups, the two overlay lists, the interface map
  (`NetDevs`, each interface with its own tag map) and the profile tag map.
- `SetRequest` — one immutable `Request` record standing for the command's
  flag variables, and the `Error` values the command can end in.
- `KeyVal` — the `key=value` split the tag flags use.
- `TagOps` — the upsert loop and the delete loop over a tag map.
- `NetDevOps` — interface creation and the "one primary interface" update.
- `ProfileMutation` — the loop body: scalar fields, IPMI write flag,
  discoverable flags, the interface section, the profile tags, the
  interface tags, in the command's order.
- `MutateProps` — properties of one mutation (empty request, unique
  primary, tag results, when the nil dereference can happen, scenarios).
- `Selection` — the target selection branch.
- `Run` — the loop with the store's per-profile update, the
  confirm / persist / reload step, and the whole run.

The record store, the prompt and the daemon are represented by their
answers (`Run.Env`): a name matcher, an "update accepted" predicate, the
prompt reply, and whether persisting and reloading work.

Some behaviours of the command are easy to miss; the model follows the
code:

- An empty request does not leave a profile unchanged: the IPMI write flag
  is assigned on every run (false unless asked for), see
  `MutateProps.MutateEmptyRequest`.
- The IPMI write flag is also switched on by an on-boot input of "y", "1"
  or "true" (not "yes"), see `ProfileMutation.MutateFields`.
- A given interface name is created before anything else in the interface
  section, so deleting an absent interface by name succeeds
  (`MutateProps.DeleteAbsentInterface`), and deleting a tag of an absent
  interface reports the missing tag, not the missing interface
  (`MutateProps.NetTagDeleteOnAbsentInterface`). The "network name doesn't
  exist" error is unreachable (`ProfileMutation.Mutate`).
- Selecting without arguments filters for "default" with the store's name
  filter; the result is every profile that filter accepts, which is exactly
  the profiles named "default" when the filter compares that pattern
  exactly (`Selection.DefaultSelectsExactly`).

## Model

| member | source | states |
|---|---|---|
| `KeyVal.SplitKeyVal` | internal/app/wwctl/profile/set/main.go:252-254 | the argument is the key, a `=`, and the value, and the key contains no `=` (split at the first `=`) |
| `KeyVal.SplitJoin` | internal/app/wwctl/profile/set/main.go:252-254 | splitting `key=value` for a key without `=` gives back exactly that key and value |
| `TagOps.AddTagsLastWins` | internal/app/wwctl/profile/set/main.go:250-264 | after the add loop each added key holds the value of the last argument naming it; every other key keeps its presence and value |
| `TagOps.DelTagsSpec` | internal/app/wwctl/profile/set/main.go:265-277 | the delete loop succeeds iff every key is present and no key is named twice; it then removes exactly the listed keys; otherwise the error is the first key that is absent when its turn comes (never there or already deleted) |
| `TagOps.AddThenDeleteSpec` | internal/app/wwctl/profile/set/main.go:250-277 | adds then deletes: a key survives iff it was present or added and is not deleted, holding its last added value; adding then deleting a key leaves it absent |
| `NetDevOps.EnsureNetDev` | internal/app/wwctl/profile/set/main.go:158-164 | a non-empty absent name is added as an empty interface with an empty tag map; existing interfaces are untouched; an empty name changes nothing |
| `NetDevOps.MakePrimary` | internal/app/wwctl/profile/set/main.go:222-230 | afterwards exactly the named interface has primary true, all others primary false, and nothing but primary flags changed |
| `ProfileMutation.MutateFields` | internal/app/wwctl/profile/set/main.go:55-156 | every scalar and overlay field is set to its non-empty input and kept otherwise; IPMI write is always assigned, true iff the IPMI write input is "yes" or on-boot is "y", "1" or "true"; undiscoverable wins over discoverable, neither keeps the flag; id, interfaces and tags unchanged |
| `ProfileMutation.MutateNetDevs` | internal/app/wwctl/profile/set/main.go:158-248 | the interface section fails iff an interface input comes without a name; the error is the process exit iff a gateway input is given without a device or netmask input, and the missing-name error otherwise; with no name and no input the interfaces are unchanged |
| `ProfileMutation.NamedStringsSpec` | internal/app/wwctl/profile/set/main.go:166-201 | with the named interface present, the device, netmask, gateway and type inputs update only that interface, each only when given |
| `ProfileMutation.NamedFlagsSpec` | internal/app/wwctl/profile/set/main.go:203-235 | on-boot and primary set the named interface's flags from their yes-spellings; a "yes" primary clears every other interface's primary flag, anything else touches only the named one |
| `ProfileMutation.NamedBeforeDelete` | internal/app/wwctl/profile/set/main.go:158-235 | with a name given, every step before the deletion succeeds, the named interface exists and holds its updates, siblings differ at most in their primary flag |
| `ProfileMutation.NamedSectionSpec` | internal/app/wwctl/profile/set/main.go:158-248 | with a name given the interface section never fails; the named interface is present iff not deleted and carries its updates; other interfaces differ only in a cleared primary flag |
| `ProfileMutation.MutateProfileTags` | internal/app/wwctl/profile/set/main.go:250-277 | the profile tag section succeeds iff the delete list is valid for the tags the add loop left; a failure is the unknown-tag error for the first key absent at its turn |
| `ProfileMutation.MutateNetTags` | internal/app/wwctl/profile/set/main.go:278-304 | without interface tag inputs nothing changes; with some and the named interface missing it is the nil dereference; with the interface present it fails iff the delete list is not valid for the tags the add loop left, naming that interface and the first key absent at its turn; only the named interface's tags change |
| `ProfileMutation.Mutate` | internal/app/wwctl/profile/set/main.go:55-304 | on success the id is kept, scalar fields follow their inputs, IPMI write follows its rule and undiscoverable wins over discoverable, neither keeping the flag; an interface input without a name always fails; failures are validation errors and never "network name doesn't exist" |
| `MutateProps.UntouchedFields` | internal/app/wwctl/profile/set/main.go:55-156 | with no field inputs only the IPMI write flag changes, to false |
| `MutateProps.MutateEmptyRequest` | internal/app/wwctl/profile/set/main.go:55-304 | an empty request succeeds and changes exactly the IPMI write flag, to false |
| `MutateProps.DeleteAbsentInterface` | internal/app/wwctl/profile/set/main.go:158-248 | deleting an absent interface by name succeeds and leaves the interfaces as they were |
| `MutateProps.NetTagsOnlyTouchTags` | internal/app/wwctl/profile/set/main.go:278-304 | the interface tag loops change only tag maps, and only the named interface's |
| `MutateProps.PrimaryIsUnique` | internal/app/wwctl/profile/set/main.go:217-235 | after a "yes" primary request on a named, not deleted interface, exactly one interface is primary: the named one |
| `MutateProps.NamedInterfaceResult` | internal/app/wwctl/profile/set/main.go:158-235 | with a name given and no deletion, the named interface exists after the run with its updates, and other interfaces keep every field except a primary flag cleared by a "yes" primary request |
| `MutateProps.NilNetDevOnlyFromNetTags` | internal/app/wwctl/profile/set/main.go:278-304 | the nil interface dereference happens only for interface tag inputs, with an empty name that is not a key or with the interface deleted in the same run |
| `MutateProps.ProfileTagsResult` | internal/app/wwctl/profile/set/main.go:250-277 | after a successful run each profile tag is present iff it was there or added and not deleted, holding its last added value or its old value |
| `MutateProps.UnknownTagExactly` | internal/app/wwctl/profile/set/main.go:265-277 | once the interface section has passed, the run stops on an unknown tag iff the delete list names an absent key or a key twice |
| `MutateProps.UnknownNetTagExactly` | internal/app/wwctl/profile/set/main.go:278-304 | with a name given and the profile tags passed, the run stops on an unknown interface tag iff the interface is not deleted, interface tags are requested, and the delete list is not valid for the tags the add loop left on it (none when just created); the key reported is the first one absent at its turn |
| `MutateProps.NetTagsResult` | internal/app/wwctl/profile/set/main.go:278-304 | the named interface's tags follow the same add-then-delete rule, starting from its old tags or none when it was just created |
| `MutateProps.NetTagsSectionTags` | internal/app/wwctl/profile/set/main.go:278-304 | on a present interface a successful interface-tag section leaves its tags as the add-then-delete rule gives, key by key |
| `MutateProps.NetTagDeleteOnAbsentInterface` | internal/app/wwctl/profile/set/main.go:293-304 | deleting a tag of an interface that does not exist yet ends in the unknown interface-tag error |
| `MutateProps.SingleTagAdd` | internal/app/wwctl/profile/set/main.go:250-264 | one `key=value` argument and no deletions add exactly that entry to the tag map |
| `MutateProps.CommentAndTagMutation` | internal/app/wwctl/profile/set/main.go:55-264 | setting the comment to "test" and adding rack=42 succeeds with both changes and the same id |
| `Selection.FilterByName` | internal/app/wwctl/profile/set/main.go:37 | the filter keeps exactly the profiles whose name matches some pattern, and no more profiles than it was given |
| `Selection.Select` | internal/app/wwctl/profile/set/main.go:29-50 | no profiles is an error whatever else is given; the all-switch selects every profile; otherwise the selection succeeds iff some profile matches the arguments (or "default"), holds exactly the matching ones, and fails with the no-match or no-default error |
| `Selection.DefaultSelectsExactly` | internal/app/wwctl/profile/set/main.go:43-49 | without arguments the targets are exactly the profiles named "default", and it is an error when there is none |
| `Run.Commit` | internal/app/wwctl/profile/set/main.go:313-348 | persist is called iff the yes-switch is on or the reply is "y" or "yes"; reload follows a successful persist; the result is an error only when persist fails |
| `Run.Process` | internal/app/wwctl/profile/set/main.go:306-309 | one turn is the mutation's error when the mutation fails; otherwise it yields the mutated profile if the store accepts it and the store's update error for that profile if not; a success keeps the id |
| `Run.Loop` | internal/app/wwctl/profile/set/main.go:52-310 | the loop succeeds iff every turn does, yielding the turns' profiles in order; otherwise it stops with the error of the first failing turn |
| `Run.ProcessAll` | internal/app/wwctl/profile/set/main.go:52-310 | the loop succeeds iff every target does, yielding each mutated profile in order under its id; otherwise it stops with the error of the first failing target |
| `Run.ProcessAllErrorKind` | internal/app/wwctl/profile/set/main.go:52-310 | the loop fails only with a validation or store-update error |
| `Run.Finish` | internal/app/wwctl/profile/set/main.go:306-350 | persist is called iff the loop succeeded and the run is confirmed; a loop error is the result and nothing is written; after a loop success the result is an error only when persist fails; written profiles are the staged ones exactly when the reload follows |
| `Run.RunSet` | internal/app/wwctl/profile/set/main.go:16-350 | with "staged" meaning the selection followed by the loop over the selected profiles: no profiles is an error without persist; persist happens iff the staged result is a success and the run is confirmed; a staged error is returned and nothing is written; after a successful persist the staged profiles are written and the daemon reload is attempted |
| `Run.WrittenAreMutated` | internal/app/wwctl/profile/set/main.go:29-350 | the reload happens iff the selection succeeds, every selected profile mutates and is accepted by the store, the run is confirmed and persisting works; the written profiles are then the selected ones, each mutated by the request, in order |
| `Run.ReloadNeverFails` | internal/app/wwctl/profile/set/main.go:319-323 | a failing daemon reload does not change the command's result |
| `Run.DeclineIsNotAnError` | internal/app/wwctl/profile/set/main.go:324-347 | a declined prompt writes nothing, calls no persist and returns no error |
| `Run.ProcessSingle` | internal/app/wwctl/profile/set/main.go:52-310 | a single accepted target passes the loop alone |
| `Run.CommentAndTagScenario` | internal/app/wwctl/profile/set/main.go:16-350 | a confirmed run on a lone "default" profile with comment "test" and tag rack=42 writes that profile with both changes and reloads the daemon |

## Left out

- Opening the node database and loading the profiles (lines 19-27): the model starts from the loaded list; those load errors are not modelled.
- `Selection.FilterByName`: the store's name matching is abstract (`matches`), and the filter is modelled as keeping matching profiles in order; the store's own ordering and de-duplication are not part of this model.
- The store's `ProfileUpdate` validation and `Persist` are represented only by whether they succeed (`Env.updateOk`, `Env.persistOk`); the database content itself is not modelled.
- The internals of the database entry type (`Set`, `SetB`, `SetSlice`) are not part of this model: setting an entry is plain assignment of `Some(value)`.
- `ProfileMutation.RequestWellFormed`: an add-tag argument without `=` makes the command crash while indexing the split; the model requires every add-tag argument to contain `=` instead of modelling the crash.
- The process exit for a gateway without an interface name (lines 186-187) is modelled as the error `GatewayExit`, not as ending the process.
- The nil interface dereference of the interface-tag loops (lines 283, 297) is modelled as the error `NilNetDev`, not as a crash.
- Log output, the prompt's wording and its profile count, and the daemon reload transport are I/O only and not modelled; the prompt is its reply string.
- Error messages are modelled as error values only; their text and the profile id they mention are not.
