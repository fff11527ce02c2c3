# SOFA storage: a verified model

This project models what the SOFA storage services decide by themselves, and proves what the order of their calls and
their arithmetic guarantee about the tools they drive: LVM, the kernel's nvmet directory, the SNAP emulation of the
BlueField DPU, the CSI driver and the mounter.

| file | what it models |
|---|---|
| `Wrappers.dfy`, `Text.dfy` | results of calls; decimal text and runs of digits |
| `Lvm.dfy` | the parser of the `lvs` table, with a printer as its partner |
| `Ports.dfy` | the search for a port number, as a function on the names that exist |
| `Export.dfy` | the state of volumes, subsystems and ports; the create and delete handlers, call by call; runs |
| `ExportSafety.dfy` | what every interleaving of create and delete requests for different volumes keeps |
| `ExportOverlap.dfy` | requests that overlap on one volume: when exactly safety is kept, and a run that loses it |
| `ExportSerial.dfy` | what serialised requests keep besides: one-to-one links, complete addresses, distinct service ids |
| `ExportConcurrent.dfy` | links of interleaved requests for different volumes, as long as every create makes the port it picked |
| `ExportOneToOne.dfy` | requests that overlap in any way: when exactly links are one to one; one create at a time |
| `ExportRaces.dfy` | runs in which two creates share a port, and in which a volume is linked from two ports |
| `ExportRuns.dfy` | what single requests do when they get through; a request as a piece of a run; running out of service ids |
| `ExportCatalog.dfy` | the map that clients see, and the refinement to it |
| `ControlService.dfy` | the handlers as methods of a class whose fields they change |
| `FunctionRanges.dfy` | the range arithmetic of the function allocator, and the choice of a function |
| `ControllerNames.dfy` | controller names and controller ids, and how they are read back |
| `DpuPlugin.dfy` | the BlueField plugin: choosing, creating and deleting |
| `ControllerFleet.dfy`, `Capacity.dfy` | create and delete requests interleaved; how a device fills up |
| `NamespaceId.dfy`, `Uuid.dfy` | the namespace id in a target path; the UUID in a volume id |
| `NodeLayers.dfy`, `NodeServer.dfy` | the layers of a published volume, call by call; the proxy's two handlers |
| `NodeScripts.dfy` | what a request to the proxy does, said on the answers its calls get |
| `NodeOverlap.dfy` | requests to the proxy that overlap in any way: when exactly the layers are kept |
| `NodeRuns.dfy` | runs of the proxy: an overlap that loses a layer, an unpublish that cannot be repeated |

## How failure is modelled

A handler is a sequence of calls. Any call may fail by itself, and any handler may stop for good; either way the handler
has made a prefix of its calls. In a run this is the event `Stop`; in the methods of `Service` it is the number of calls
that a request gets through (`calls`, counted down in `lives`). `Does` ties one method to one step of the step function,
and `Continues` ties a part of a handler to the rest of its run, so the contracts of the handlers reduce to the run of the
step function, about which the lemmas speak. The node proxy's calls take their answers from a script; an error there may
come after the call took effect.

## Assumptions about the environment

- `rmdir` of a port fails while it has links; `rmdir` of a subsystem fails while it has links or namespaces; a link needs
  its port and its subsystem. A new port has no attribute set, which the model reads as the empty text.
- `lvcreate` fails if the name exists, and otherwise adds a volume of the size asked for. There is one volume group, and
  nobody else changes it or the nvmet directory. A volume name is one path component. `dd` fails if the source does not
  exist or is larger than the new volume.
- Which requests overlap: the control service answers from a pool of threads (`example/ctrl_server.py:21`) and the proxy
  from a gRPC server, and neither holds locks. `ExportOverlap`, `ExportOneToOne`, `ExportRaces`, `NodeOverlap` and
  `NodeRuns` let any requests overlap. `ExportSafety` and `ExportConcurrent` let requests for different volumes interleave
  in any way and assume that no two requests in flight name the same volume; `ExportSerial`, `ExportCatalog` and the
  methods of `Service` and `Server` assume one request at a time.
- Attributes of a port may be written while it has links; where the kernel refuses that, the request fails, which `Stop`
  covers.
- A failed call of LVM, of the nvmet directory or of SNAP changes nothing. SNAP refuses a second controller on a function
  and names controllers `NvmeEmu0pf<p>` or `NvmeEmu0pf<p>vf<v>`.
- After a cleanup of the mount point that reports success, publish's mount is gone.
- The number of physical and of virtual functions are parameters (2 and 127 in the plugin).

## Where the code does less than it seems to promise

- Service ids: a linked port has one exactly if its number is at most 100 (`ExportSerial.LinkedPortAddress`), and a
  publish gets one exactly if some number up to 100 is free (`ExportRuns.ServiceIdIsSet`). The setter only prints and the
  link is still made.
- Service ids run out by creating 101 volumes one after the other (`ExportRuns.ServiceIdsRunOut`).
- Two create requests at once can both succeed on one port (`ExportRaces.ConcurrentCreatesShareAPort`): the second takes
  the directory it comes upon for its own. Links are one to one throughout a run exactly if every link that is made is the
  only one of its port and the only one of its volume (`ExportOneToOne.OneToOneExactly`). With one create request in flight
  at a time no port links two volumes, whatever deletes overlap (`ExportOneToOne.OneCreateAtATimeSuffices`); for no volume
  to be linked from two ports, clients also have to keep deletes of a volume apart from creates that work on it
  (`ExportRaces.DeleteLetsCreateLinkAgain`).
- Requests that overlap on one volume can break safety: a delete that looks at the ports before a create links its own
  removes the namespace from under the link (`ExportOverlap.OverlapBreaksSafety`). Safety is kept throughout exactly if
  four calls find what they have to (`ExportOverlap.SafeExactly`), and it is enough that no delete of a volume overlaps a
  create that works on it (`ExportOverlap.NeverMixedIsSafe`). Creates may overlap creates, because `lvcreate` lets one of
  them through, and deletes may overlap deletes.
- In the same way a publish that overlaps an unpublish of the same volume and target can succeed and lose the layers below
  its mount (`NodeRuns.OverlapBreaksLayers`). The layers are kept throughout exactly if four calls find what they have to
  (`NodeOverlap.LayeredExactly`), and it is enough that no publish and unpublish of one volume and target overlap
  (`NodeOverlap.NeverMixedIsLayered`).
- An unpublish that fails after its cleanup of the mount point cannot be repeated: the look at the target then refuses it,
  and the layers below stay up until a publish begins (`NodeRuns.UnpublishGetsStuck`, `NodeRuns.StuckUntilPublish`). A
  publish followed by an unpublish takes them down (`NodeRuns.PublishRecovers`).
- The range of indices is right for a negative index exactly from -(n + 1) on (`FunctionRanges.IndexRangeExact`); the
  functions offered are those asked for exactly under `InDomain` (`FunctionRanges.CandidatesExact`).
- Controller ids identify a function exactly if its physical index is below 10 (`ControllerNames.IdRoundTrip`,
  `ControllerNames.IdAmbiguous`), so ids name controllers in all runs of requests for a physical index exactly if the range
  of that index stays within the first ten functions (`ControllerFleet.InReachExactly`). Publishing finds the controller
  of an id exactly for virtual functions (`ControllerNames.PublishNameExact`).
- The UUID is found at a given place exactly if the text before it is empty or ends in a non-word character and holds no
  UUID itself (`Uuid.FindsEmbeddedIff`).

## Model

| member | source | states |
|---|---|---|
| ExportSafety.EveryInterleavingIsSafe | example/ctrl_service.py:28-56 | if no two requests in flight name the same volume, then after every interleaving of create and delete requests, with failure or stop anywhere, a subsystem exists only with its volume, a link leads only to a subsystem that any host may use with one enabled namespace on the device `/dev/<vg>/<volume>`, no two linked volumes have the same device, and no volume is linked from two ports |
| ExportSafety.StepFrame | example/nvmet.py:217-253 | a call of a handler changes nothing of another volume: its LV, its subsystem, the ports that link it |
| ExportSafety.StepKeepsLocal | example/nvmet.py:217-253 | each call of a handler keeps its own volume backed, and what the handler's next call relies on |
| ExportOverlap.SafeExactly | example/ctrl_service.py:28-56 | for requests that overlap in any way, on one volume too: the store is safe throughout a run exactly if each of four calls finds what it has to: making a subsystem its volume, linking the export and no other link, removing the namespace no link, lvremove no subsystem |
| ExportOverlap.NeverMixedIsSafe | example/ctrl_service.py:28-56 | the store is safe, and links lead to the volume's own device as above, throughout every run in which no delete of a volume is in flight while a create works on it, whatever else overlaps |
| ExportOverlap.RequestStops | example/ctrl_service.py:28-56 | a request can stop after any number of its calls, whatever else is in flight, and leaves exactly what these calls have done |
| ExportOverlap.OneCreateWorks | example/lvm.py:30-35 | in every run in which no delete overlaps a create that works on its volume, of the creates that overlap on a volume at most one is past lvcreate |
| ExportOverlap.OverlapBreaksSafety | example/nvmet.py:235-253 | for every volume some run with a delete that overlaps the create ends with a link to a subsystem without its namespace |
| ExportSerial.SerialLinksOneToOne | example/nvmet.py:225-235 | in every serialised run no port links two volumes and no volume is linked from two ports |
| ExportSerial.LinkedPortAddress | example/nvmet.py:229-233 | a linked port is number n with the configured family, address and transport; its service id is 4420 + n - 1, within 4420..4519, exactly if n is at most 100 |
| ExportSerial.ServiceIdsDistinct | example/nvmet.py:136-141 | two linked ports never share a service id that is set, also after numbers were freed and reused |
| ExportSerial.RoomyServiceIds | example/nvmet.py:225-235 | if fewer than 100 ports exist at each publish, every linked port has all four attributes and a service id in range |
| ExportSerial.PickedNumber | example/nvmet.py:225-227 | with fewer than 100 ports the number searched for never passes 100 |
| ExportConcurrent.ConcurrentLinksOneToOne | example/nvmet.py:203-235 | if no two requests in flight name the same volume, then in every interleaving in which each create makes the port it picked, links are one to one, every linked port has its complete address, and no two share a service id |
| ExportOneToOne.OneToOneExactly | example/nvmet.py:161-164 | for requests that overlap in any way, on one volume too: links are one to one throughout a run exactly if every link that is made is the only one of its port and the only one of its volume |
| ExportOneToOne.OneCreateAtATimeSuffices | example/nvmet.py:203-253 | with at most one create request in flight, whatever deletes overlap it, of its own volume too: no port links two volumes, linked ports have their complete address and no two share a service id; if besides no delete overlaps a create that works on its volume, links are one to one |
| ExportOneToOne.StepKeepsOtherPort | example/nvmet.py:203-253 | the port of a create stays as the create left it, or is gone, through every call of a delete |
| ExportConcurrent.SerialMakesPorts | example/nvmet.py:203-229 | serialised requests always make the port they picked |
| ExportConcurrent.OtherKeepsPort | example/nvmet.py:203-253 | a call of one handler leaves the port of another one, about to be linked or removed, as it is |
| ExportRaces.ConcurrentCreatesShareAPort | example/nvmet.py:203-235 | for any two volumes some run of two overlapping creates and no delete ends with both linked at one port |
| ExportRaces.DeleteLetsCreateLinkAgain | example/ctrl_service.py:28-56 | for any volume some run with at most one create in flight and a delete that overlaps it ends with the volume linked from two ports |
| ExportRuns.ServiceIdIsSet | example/nvmet.py:136-141 | a publish sets the service id exactly if some number from 1 to 100 names no port |
| ExportRuns.ServiceIdsRunOut | example/nvmet.py:136-141 | for every n a serialised run of creates ends with ports 1 to n; for n above 100 port n is linked and has no service id |
| ExportRuns.PublishCompletes | example/nvmet.py:217-239 | an uninterrupted publish of a volume without a subsystem adds exactly its subsystem, its enabled namespace on `/dev/<vg>/<volume>`, and one port, with the first free number, its address and the one link |
| ExportRuns.UnpublishCompletes | example/nvmet.py:242-253 | given calls enough, unpublish ends exactly if its ports link nothing else and its subsystem holds no other namespace, and then has removed all and only this volume's links, ports, namespace and subsystem, whatever the order of the listing |
| ExportRuns.ReachableIsRemovable | example/nvmet.py:242-253 | in every state of a serialised run that condition holds |
| ExportRuns.UnpublishKeepsOthers | example/nvmet.py:242-253 | unpublish leaves every other volume's export as it was, port attributes included |
| ExportRuns.PublishUnpublish | example/nvmet.py:217-253 | publish, then unpublish, of a volume without a subsystem restores ports, subsystems, namespaces and links exactly |
| ExportRuns.DeleteIsExact | example/ctrl_service.py:52-56 | a delete that reports success has removed this volume and nothing else, from any state; with calls enough it succeeds if the volume exists and is removable |
| ExportRuns.CreateIsExact | example/ctrl_service.py:28-45 | up to the copy of a source volume, a create succeeds only for an allowed capacity and a new name, and has then added exactly the volume, of that capacity, and its export; with calls enough it does succeed |
| ExportRuns.CreateRefused | example/ctrl_service.py:30-39 | a create for too large a capacity or for a name that exists fails and changes nothing |
| ExportRuns.DeleteOfNothing | example/ctrl_service.py:52-56 | a delete of a volume that does not exist fails and changes nothing |
| ExportRuns.RequestExtendsRun | example/ctrl_service.py:28-56 | what one request does by itself is a piece of a serialised run, so that all results on runs hold between requests |
| ExportCatalog.StepRefinesCatalog | example/ctrl_service.py:28-56 | in serialised runs each call does to the map of volume to size and endpoint exactly one of: add, publish, withdraw, remove, nothing |
| ExportCatalog.EndpointsDistinct | example/ctrl_service.py:67-71 | in serialised runs an endpoint with a service id belongs to one volume |
| Ports.FreeFrom | example/nvmet.py:225-227 | the search returns the first number whose decimal text is no name, after at most as many steps as there are names ahead |
| Ports.LeastFree | example/nvmet.py:225-227 | the number found is the least free one, and at most one more than the number of ports, whatever other names exist |
| Ports.PassedNumbers | example/nvmet.py:225-227 | pigeonhole: the numbers passed are no more than the ports |
| ControlService.Service.FindPortNumber | example/nvmet.py:225-227 | the loop terminates, with the least free number and one listing for each number tried |
| ControlService.Service.CreateSubsystem | example/nvmet.py:197-201 | makes the subsystem's directory unless it exists |
| ControlService.Service.CreateNamespace | example/nvmet.py:65-69 | makes the namespace's directory unless it exists; fails without the subsystem |
| ControlService.Service.CreatePort | example/nvmet.py:203-207 | makes the port's directory unless it exists |
| ControlService.Service.SetAdrfam | example/nvmet.py:117-122 | sets an accepted family, fails without the port, changes nothing for another value or when it fails |
| ControlService.Service.SetTraddr | example/nvmet.py:128-130 | sets the address, fails without the port, changes nothing when it fails |
| ControlService.Service.SetTrsvcid | example/nvmet.py:136-141 | sets a service id in range, fails without the port, changes nothing for another value or when it fails |
| ControlService.Service.SetTrtype | example/nvmet.py:147-152 | sets an accepted transport, fails without the port, changes nothing for another value or when it fails |
| ControlService.Service.LinkSubsystem | example/nvmet.py:161-164 | links the subsystem at the port |
| ControlService.Service.RemoveLink | example/nvmet.py:166-169 | removes the link if there is one |
| ControlService.Service.DeletePort | example/nvmet.py:36-39 | removes the port's directory if it exists, and fails while it has links |
| ControlService.Service.DeleteSubsystem | example/nvmet.py:36-39 | removes the subsystem's directory if it exists, and fails while it has namespaces or links |
| ControlService.Service.PublishVolume | example/nvmet.py:217-239 | makes the calls of publish in their order, up to the first that fails |
| ControlService.Service.UnpublishVolume | example/nvmet.py:242-253 | makes the calls of unpublish in their order, for some order of the listing, up to the first that fails |
| ControlService.Service.GetPortBySubsystem | example/nvmet.py:209-214 | returns a port that links the volume, or none exactly if there is none |
| ControlService.Service.CTRLCreateVolume | example/ctrl_service.py:28-50 | success means a new name, an allowed capacity, exactly the created and published volume, and, if a source is named, that it is the volume itself or exists and is no larger; given calls enough, a new name and an allowed capacity, a request without a source succeeds, and one with a source exactly under that condition; too large a capacity or a name that exists changes nothing; other failures leave what the calls made so far have done; between requests the history is a serialised run |
| ControlService.Service.PopulateVolume | example/lvm.py:45-51 | the copy succeeds exactly if the source exists and fits, and changes nothing that is modelled |
| ControlService.Service.CTRLDeleteVolume | example/ctrl_service.py:52-56 | success means that exactly this volume, its subsystem and the ports that link it are gone; in a state between requests it succeeds for every existing volume, given calls enough, and changes nothing for another name |
| ControlService.Service.AttachAddress | example/ctrl_service.py:67-71 | the address sent on is that of the port that links the volume, as publish configured it, and the handler fails exactly if no port does |
| ControlService.Service.CTRLListVolumes | example/ctrl_service.py:96-117 | one entry for each row that `lvs` printed, in order, with the row's name and size and the endpoint of the port that links the volume, or none exactly if no port does; fails exactly if `lvs` fails or a row is malformed |
| ControlService.OnlyPort | example/nvmet.py:209-214 | between serialised requests the first hit is the only hit, with the endpoint that publish configured |
| ControlService.ListingIsCatalog | example/ctrl_service.py:99-112 | the listing is the catalog: one entry for each volume, with its size and endpoint |
| ControlService.PrintedTableIsCatalog | example/ctrl_service.py:99-112 | the same from the text that `lvs` prints, in the order of the table |
| Lvm.ListVolumes | example/lvm.py:14-27 | parses every line after the header, in order; fails exactly if the command failed or a row is malformed |
| Lvm.ListInvertsPrint | example/lvm.py:18-23 | the parser inverts every table of names and sizes with arbitrary padding under a header line |
| Lvm.ParsePrintedRow | example/lvm.py:20-23 | one printed row parses to its name and size |
| Lvm.ParseRowExact | example/lvm.py:20-23 | a line parses exactly if it is, between white space, a name, then digits and one more character, and then anything after white space; the result is that name and number |
| Lvm.SplitEnded | example/lvm.py:18-19 | a text splits into its lines whichever way they end, line feed, carriage return or both, with a last line that does not end |
| Text.DecimalDigits | example/nvmet.py:226-226 | numbers are printed by their decimal digits, without leading zeros |
| Text.ParseDigits | example/lvm.py:22-22 | digits are read back by their places |
| FunctionRanges.IndexRangeCases | sofa_storage/dpu_plugin_bf.py:185-188 | the range expression is all indices, one index, none, or a range past the device, for every index |
| FunctionRanges.IndexRangeExact | sofa_storage/dpu_plugin_bf.py:185-188 | it is the range that the index stands for exactly from -(n + 1) on |
| FunctionRanges.CandidatesExact | sofa_storage/dpu_plugin_bf.py:172-192 | the functions offered are those the request asks for exactly under a condition on the two indices |
| FunctionRanges.ChoiceRefines | sofa_storage/dpu_plugin_bf.py:163-205 | the choice is the lexicographically least free function that matches, and (-1, -1) exactly if there is none |
| FunctionRanges.ChoiceIsFirst | sofa_storage/dpu_plugin_bf.py:163-205 | for all indices, however far below zero: the choice is the first function, by physical and then by virtual index, that is offered and free, and (-1, -1) exactly if there is none |
| DpuPlugin.GetAvailableFunctions | sofa_storage/dpu_plugin_bf.py:163-205 | the same two of the method, for every list of controller names and every request |
| DpuPlugin.MinOf | sofa_storage/dpu_plugin_bf.py:204-204 | the least pair of a set that is not empty |
| ControllerNames.NameRoundTrip | sofa_storage/dpu_plugin_bf.py:194-200 | for every function the scan of its controller name for runs of digits gives the function back |
| ControllerNames.NameInjective | sofa_storage/dpu_plugin_bf.py:259-263 | two functions never share a controller name |
| ControllerNames.UsedIsLive | sofa_storage/dpu_plugin_bf.py:194-200 | the functions parsed from the list of controllers are exactly those that exist |
| ControllerNames.IdRoundTrip | sofa_storage/dpu_plugin_bf.py:251-263 | deleting reads an id back as its function exactly if the physical index is below 10 |
| ControllerNames.IdInjective | sofa_storage/dpu_plugin_bf.py:251-254 | below physical index 10 two functions never share an id |
| ControllerNames.IdAmbiguous | sofa_storage/dpu_plugin_bf.py:251-254 | from physical index 10 on the id of a physical function is also that of a virtual one |
| ControllerNames.IdIsNotFailure | sofa_storage/dpu_plugin_bf.py:217-254 | an id is never "-1" |
| ControllerNames.PublishNameExact | sofa_storage/dpu_plugin_bf.py:97-103 | publishing rebuilds the controller name of an id exactly for virtual functions of the first ten physical ones, and fails on ids of physical functions |
| DpuPlugin.Plugin.CreateController | sofa_storage/dpu_plugin_bf.py:163-254 | raises exactly if SNAP gives no list of controllers; otherwise creates the controller of the first free function offered, under its name, and returns its two indices as id, or returns "-1" and changes nothing, exactly if none is free or one of the two calls that make something fails; the calls are those of a request of the fleet |
| DpuPlugin.Plugin.DeleteController | sofa_storage/dpu_plugin_bf.py:257-271 | removes exactly the controller named by the first digit of the id and the number after it, and raises exactly if the id is empty or holds another character; it is the delete of the fleet |
| DpuPlugin.DeleteUndoesCreate | sofa_storage/dpu_plugin_bf.py:251-271 | a create followed by a delete of the returned id restores the list of controllers |
| ControllerFleet.HeldIdsNameLiveControllers | sofa_storage/dpu_plugin_bf.py:207-271 | as long as the ranges of the physical indices asked for stay within the first ten functions, after every interleaving the ids held are pairwise distinct and decode to exactly the controllers that exist |
| ControllerFleet.InReachExactly | sofa_storage/dpu_plugin_bf.py:185-271 | for each physical index that condition is exact, over all runs of requests for it; for requests without one it says that the device has at most ten physical functions |
| ControllerFleet.OneHolder | sofa_storage/dpu_plugin_bf.py:207-254 | of the requests that chose a function, however many and from whatever lists, the first that makes its controller while the function is free holds the id, and is the only one to hold an id of that function through every continuation of the run until it is deleted; one that comes later ends without an id |
| ControllerFleet.DeleteFrees | sofa_storage/dpu_plugin_bf.py:257-271 | a delete of an id that a request holds takes away exactly the function it decodes to, which exists, and exactly that request's id |
| ControllerFleet.DeleteUndoesRequest | sofa_storage/dpu_plugin_bf.py:207-271 | a create followed by the delete of its id gives back the fleet before it, whatever else is in flight, and a further create with the same indices gets the same id again |
| ControllerFleet.FailedRun | sofa_storage/dpu_plugin_bf.py:217-249 | a create that fails at any of its calls leaves the fleet as it was |
| Capacity.NthIncreases | sofa_storage/dpu_plugin_bf.py:204-204 | the order in which functions are handed out is strictly increasing |
| Capacity.DeviceFillsInOrder | sofa_storage/dpu_plugin_bf.py:185-254 | unconstrained create requests one after the other hold exactly the ids of the first functions in order; exactly P * (V + 1) succeed and every later one ends without an id |
| NamespaceId.ExtractIsSearch | sofa_storage/dpu_plugin_bf.py:105-106 | the id is what the regular expression's search finds: leftmost, longest, before a final line feed too |
| NamespaceId.ExtractPrinted | sofa_storage/dpu_plugin_bf.py:105-106 | a number printed after a name that ends in no digit comes back |
| NamespaceId.SameNamespace | sofa_storage/dpu_plugin_bf.py:137-138 | publish and unpublish name the same namespace exactly if their paths end in the same digits, a final line feed aside |
| Uuid.FindFrom | sofa-csi-proxy/pkg/sofa/nodeserver.go:78-83 | the first match from a place on, or none exactly if there is none |
| Uuid.NoStraddle | sofa-csi-proxy/pkg/sofa/nodeserver.go:78-83 | no match begins before an embedded UUID and reaches into it |
| Uuid.FindsEmbedded | sofa-csi-proxy/pkg/sofa/nodeserver.go:78-83 | a UUID after a prefix that ends no word and holds no UUID is exactly what is found, whatever follows |
| Uuid.FindsEmbeddedIff | sofa-csi-proxy/pkg/sofa/nodeserver.go:199-204 | that condition on the prefix is exact |
| Uuid.FindUuidStable | sofa-csi-proxy/pkg/sofa/nodeserver.go:199-204 | the UUID found does not depend on what follows it, and is found again in itself |
| Uuid.FindUuidIsSearch | sofa-csi-proxy/pkg/sofa/nodeserver.go:78-83 | what is found is the leftmost match of the pattern, groups of 8, 4, 4, 4 and 12 lower-case hex digits after no character of a word, and nothing is found exactly if it matches nowhere |
| Uuid.FindsGroups | sofa-csi-proxy/pkg/sofa/nodeserver.go:78-83 | such groups joined by hyphens are recovered whole after a prefix that ends no word and has no match, whatever follows |
| NodeOverlap.LayeredExactly | sofa-csi-proxy/pkg/sofa/nodeserver.go:66-232 | for requests that overlap in any way, with errors that may have taken effect: a mount stands on a DPU publish and that on a CSI publish, both in fact and by the last calls that succeeded, throughout a run exactly if each of four calls that takes effect finds what it has to |
| NodeOverlap.NeverMixedIsLayered | sofa-csi-proxy/pkg/sofa/nodeserver.go:66-232 | the layers are kept throughout every run in which no publish and unpublish of one volume and target are in flight together; publishes may overlap publishes and unpublishes unpublishes |
| NodeOverlap.NothingUpUnasked | sofa-csi-proxy/pkg/sofa/nodeserver.go:46-234 | however requests overlap, no layer of a volume and target is up unless a publish of it began |
| NodeRuns.OverlapBreaksLayers | sofa-csi-proxy/pkg/sofa/nodeserver.go:66-232 | for every volume and target that is served some run with a publish that overlaps an unpublish, in which every call succeeds and every look at the target is truthful, ends with a mount and no layer below |
| NodeRuns.StuckUntilPublish | sofa-csi-proxy/pkg/sofa/nodeserver.go:177-190 | once nothing is mounted, every unpublish is refused and the layers below stay as they are, through every run with truthful looks at the target in which no publish of it begins |
| NodeRuns.UnpublishGetsStuck | sofa-csi-proxy/pkg/sofa/nodeserver.go:187-228 | some run gets there with the layers below still up: an unpublish whose first call after the cleanup fails |
| NodeRuns.PublishRecovers | sofa-csi-proxy/pkg/sofa/nodeserver.go:46-234 | from every such state a publish and an unpublish that go through take all layers down and touch no other target |
| NodeRuns.RequestStops | sofa-csi-proxy/pkg/sofa/nodeserver.go:46-234 | a publish or an unpublish can stop after any number of its calls, whatever else is in flight, and leaves exactly the layers that their answers say |
| NodeLayers.StepKeepsLocal | sofa-csi-proxy/pkg/sofa/nodeserver.go:66-232 | each call of a handler keeps the layers, and what the next call relies on |
| NodeLayers.MountLoop | sofa-csi-proxy/pkg/sofa/nodeserver.go:148-163 | the mount loop succeeds exactly if one of the first 51 attempts does, and fails exactly after 51 errors |
| NodeLayers.PublishPutsUp | sofa-csi-proxy/pkg/sofa/nodeserver.go:66-165 | a publish that reports success has its CSI and DPU layers in place, and a mount, unless the look at the target found something mounted there |
| NodeLayers.UnpublishTakesDown | sofa-csi-proxy/pkg/sofa/nodeserver.go:177-232 | an unpublish that reports success has taken all layers down |
| NodeScripts.PublishOnScript | sofa-csi-proxy/pkg/sofa/nodeserver.go:46-165 | on the answers of its calls: a publish succeeds exactly if its arguments are complete, the CSI driver and, with a DPU client, a UUID in the id and the DPU succeed, a poll finds the device, and the look at the target says mounted, or says not mounted, or missing and the path can be made, and one of 51 attempts to mount succeeds; and it leaves exactly the layers whose calls took effect |
| NodeScripts.UnpublishOnScript | sofa-csi-proxy/pkg/sofa/nodeserver.go:167-234 | the same of unpublish: the look has to find a mount point, and the cleanup, the DPU with a UUID in the id, and the CSI driver have to succeed |
| NodeServer.Server.WaitForDevice | sofa-csi-proxy/pkg/sofa/nodeserver.go:97-108 | polls until a device with the UUID appears, and then goes on to the target |
| NodeServer.Server.MountWithRetries | sofa-csi-proxy/pkg/sofa/nodeserver.go:148-163 | the counted loop itself: success exactly if one of the first 51 attempts succeeds |
| NodeServer.Server.NodePublishVolume | sofa-csi-proxy/pkg/sofa/nodeserver.go:46-165 | succeeds exactly on those answers and leaves exactly those layers, with every early return; touches no other volume or target, keeps the layers |
| NodeServer.Server.NodeUnpublishVolume | sofa-csi-proxy/pkg/sofa/nodeserver.go:167-234 | the same of unpublish; success means that all layers are down |

## Left out

- gRPC servers and stubs, command lines, configuration and log files, deployment manifests: no decisions of their own.
- The contents of volumes: of the copy from a source volume (`dd`) the model has only whether it fails.
- Rounding of volume sizes to LVM extents: a volume has the size asked for.
- Volume names with path separators, and the empty name: they would reach other directories.
- `isdir`, `islink` and the call that follows are one step; a race between them makes the call fail, which `Stop` covers.
- Two targets of one volume: each has layers of its own; what one driver's call for one target does to the other is not
  part of this model.
- Rollback: a failed publish leaves the volume and perhaps an unlinked port, a failed controller creation leaves its
  subsystem; nothing is claimed beyond the prefix of calls made.
- Faults of reading calls in the list and attach handlers: they change no state.
- Detaching, and DPU publish and unpublish as an inverse pair: unpublish always detaches from `NvmeEmu0pf0`.
- Digits outside ASCII in names and paths, and integers that Python's `int` takes with signs, blanks or underscores.
- ExportSafety.EveryInterleavingIsSafe: leaves out requests that overlap on one volume, which `ExportOverlap.SafeExactly` and
  `ExportOverlap.NeverMixedIsSafe` cover.
- ExportConcurrent.ConcurrentLinksOneToOne: leaves out requests that overlap on one volume, which
  `ExportOneToOne.OneToOneExactly` and `ExportOneToOne.OneCreateAtATimeSuffices` cover.
- ControllerFleet.HeldIdsNameLiveControllers: leaves out SNAP errors that come after the controller was made.
- Whether SNAP accepts a function that the device does not have, which an index far below zero can lead to: the model lets
  it accept or fail.
- Progress of the wait for a device: unbounded by design.
- The proxy's controller id `NvmeEmu0pf0` meeting the BlueField plugin: the DPU stays abstract in the proxy's model.
- The plain-Linux plugin, the identity server and the controller server: printing and forwarding only.
