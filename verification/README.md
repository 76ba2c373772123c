# og-webserver: verified model

A Dafny model of the parts of og-webserver whose correctness spans many steps or several files, with proofs that
hold for every input, run and interleaving. `dafny verify dfyconfig.toml` checks all of it.

- `TlsServer.dfy`: the TLS server as a transition system. One acceptor and any number of request threads share the
  client list; the kernel may reissue any closed descriptor and malloc any freed address. Faults (use after free, double
  free or close, a missing client) are explicit and shown unreachable. `TlsProgress.dfy`: what can always still happen.
- `EpollServer.dfy`, `ClientLists.dfy`: the plain server's event loop over batches, on the linked client list.
- `ConfigModel.dfy`: configuration syntax trees and the builder actions as functions on list contents, run in the order
  in which the grammar reduces. `ConfigMeaning.dfy`: what a tree declares, stated without those lists, and the proof that
  the actions build exactly that. `ConfigLocations.dfy`: the same for locations, where the last write
  to a field wins, and for what is freed. `LocationResults.dfy`: what that means for a server's one location and its
  ports. `Balancing.dfy`: which configurations the program starts with, and whose requests are then balanced.
  `ConfigBuilder.dfy`, `Chains.dfy`: the same actions on linked lists changed in place.
- `LoadBalancer.dfy`: weights expanded into nodes, and the cursor that walks them.
- `Text.dfy`, `MimeTypes.dfy`, `HttpRequest.dfy`, `ProxyPass.dfy`, `IncludeExpansion.dfy`: the parsers that cut one
  mutable buffer into strings, the functional parsers they refine, round trips, and the rewriting of proxied requests
  (RFC 7230, sections 3.1.1 and 5.4).
- `Startup.dfy`, `Routing.dfy`: process plan, port checks, log files, and the choice of server and location, tied back to
  the configuration.
- `Sequences.dfy`, `Options.dfy`, `Kernel.dfy`: small helpers.

Where the code does not do what it is meant to, the model follows the code and a theorem gives the exact condition under
which it does:

- `OneLocationPerServer`: a later `location` block replaces what the earlier ones of its server block match.
- `OwnSettingsOnly`, `TrailingLocation`: an `expires`, or the match of a location block, that comes before any `root`,
  pass or `try_files` of its server block stays in the default for later servers.
- `OwnPortsOnly`, `TrailingPort`: an `ssl` before any port of its server block marks the default port, which later
  servers take.
- `LocationIsBalanced`: one `proxy_pass` to an upstream group does not reach the balancer, and two end the program.
- `StartsExactly`: `expires off`, a second `listen *`, a group passed to twice in one location, or no default server
  end in a wrong free or a use of freed memory.
- `GroupServesOnlyItsOwnLines`: a later group also serves the lines of earlier groups.
- `PopRemovesTheDefault`: switching the default server off drops the first declared server. The comment in
  `serverState.c` says the default is first; `f_http` appends it last.
- `FileRoundTrip`: the tab search in `parseLine` looks through the whole file.
- `RequestRoundTrip`: the Host search matches inside other headers (`ForwardedHostIsTaken` is an instance).
- `WholeResponseRelayed`: relaying stops at the first piece that does not fill the buffer, or has no status.
- `RequestIsDelivered`: a request that grows past the buffer, has a NUL, has a request line that crosses the blank line,
  meets a root that makes its path too long, or is not received at once does not get through (`TooManyHops`,
  `NulCutsTheRequest`, `InsertChangesLate`, `LongPathIsRefused` and `ShortReceiveCuts` show each).
- `OutputIsSafe`: an included file without a final newline can run into the next line (`UnterminatedFileRunsOn`).

## Model

| member | source | states |
|---|---|---|
| TlsServer.RegisteredClientsAreSafe | tlsServer.c:42-113 | Over every interleaving of the acceptor and any number of request threads, with the kernel free to reissue any closed descriptor: no freed record is used, nothing is released twice, registered descriptors are pairwise distinct, open, and not the listening socket |
| TlsServer.ThreadFindsItsOwnRecord | serverState.c:324-363 | In every reachable state a thread that has not removed its record finds exactly that record by its descriptor; from then until it closes the descriptor no listed record answers to it, even if the record's address is in use again |
| TlsServer.WhatIsUsedIsThere | tlsServer.c:68-113 | In every reachable state, what a thread is about to use is there: its record until it has freed it, a reference to the context beside the acceptor's, its open descriptor, and what its cleanup found is its own record |
| TlsServer.NothingIsShared | tlsServer.c:42-66 | Two threads that both still have their records have different records, descriptors and files |
| TlsServer.ContextAndCounterAreExact | tlsServer.c:72-113 | In every reachable state the shared context has one reference plus one per thread between SSL_new and SSL_CTX_free, and threadCount is the number of threads between its two critical sections |
| TlsServer.FreesMatchPhase | socket.c:203-215 | Over any run, how often a thread has freed a record is exactly what its phase says |
| TlsServer.EachRecordFreedOnce | socket.c:203-215 | A thread frees at most one record, its own, and has freed it by the time it exits |
| TlsServer.RecordsConserved | socket.c:179-215 | Over any run the records still allocated plus those freed are those allocated at the start plus those queued since |
| TlsServer.NothingLeaks | tlsServer.c:42-113 | When every thread has exited and the acceptor waits or has stopped, list and heap are empty, the context has one reference, the counter is zero, and only the listening socket and files a handler left open are open |
| TlsServer.AllReleased | socket.c:203-215 | The same from the invariant alone, for any state in which all threads have exited |
| TlsServer.StepKeepsInv | tlsServer.c:42-113 | Every enabled step of every thread keeps ownership of records and descriptors, and both counters |
| TlsServer.RunKeepsInv | tlsServer.c:42-113 | So does every run |
| TlsServer.ThreadStepReplaces | tlsServer.c:72-113 | A thread's step never faults and gives up or takes only what is that thread's own |
| TlsServer.ReplaceKeepsOwnership | socket.c:203-215 | Any change confined to one thread's own record and descriptors keeps all others apart |
| TlsServer.ReplaceKeepsOwned | socket.c:203-215 | Such a change leaves nothing listed, allocated or open without a holder |
| TlsServer.AcceptorStepKeepsOwnership | tlsServer.c:46-63 | Accepting, allocating, registering and spawning keep records and descriptors apart |
| TlsServer.ListedFdsDistinct | serverState.c:324-329 | Listed records are allocated and no two have the same descriptor |
| TlsServer.FindsOwnRecord | serverState.c:331-342 | The first record with a listed thread's descriptor is its own |
| TlsProgress.ConnectionStarts | tlsServer.c:47-64 | From any reachable state with a waiting acceptor, whatever the threads are doing, the next connection can be accepted on any unused descriptor, given any unused record, registered, and handed to a new thread; the new state is written out, and nothing else changes |
| TlsProgress.AcceptorStops | tlsServer.c:51-55 | A waiting acceptor may also stop, closing its own socket and nothing else |
| TlsProgress.RequestIsHandled | tlsServer.c:78-103 | A running thread can look up its client, open any unused descriptor and close what it opened, in any reachable state |
| TlsProgress.NextStep | tlsServer.c:68-113 | Each thread that has not exited has an enabled step, which brings it one phase further and moves nobody else |
| TlsProgress.ThreadFinishesAlone | tlsServer.c:68-113 | From any reachable state each thread can go through all its remaining steps in the order of processRequest and cleanup, while nobody else moves: no thread waits for another |
| TlsProgress.EveryRunCanFinish | tlsServer.c:42-113 | Every run can go on until all threads have exited and the acceptor waits again (or has stopped, as before), and by then list, heap, context and counter are as at the start |
| TlsProgress.EveryCombinationIsReached | tlsServer.c:42-113 | For any number of threads and any choice of a phase for each there is a run to a state with just these threads in these phases |
| TlsProgress.AnyNumberRunsAtOnce | tlsServer.c:63-64 | So n requests are handled at once in some reachable state, for every n |
| EpollServer.Server.HandleBatch | server.c:67-156 | After a batch that names each descriptor at most once, the clients are the new ones in front of the old ones without those that ended, the requests served are those of the records the descriptors had when the batch arrived, and as many connections were admitted as the batch announced; watched and registered descriptors agree |
| EpollServer.Server.HandleBatches | server.c:50-157 | Over any number of rounds of the endless loop, whoever was registered or accepted is either still registered or has ended, exactly once, and nobody is served more often than that |
| EpollServer.ServedOnce | server.c:134-154 | Each client that ends with a batch is served at most once in it |
| EpollServer.EndedExactly | server.c:70-98 | A descriptor's client ends in a batch exactly if it is not the listening socket and an event says that it hung up or can be read |
| EpollServer.ServedExactly | server.c:134-154 | A client is served in a batch exactly if it is registered and an event says that its descriptor can be read and has not hung up |
| EpollServer.ArrivesExactly | server.c:99-132 | A batch admits one connection if such an event names the listening socket, and otherwise none |
| EpollServer.Server.HandleEvent | server.c:70-155 | One event ends its client, admits one, or does nothing, and keeps watched and registered descriptors equal; it stops the server only for the listening socket |
| EpollServer.Server.Cleanup | socket.c:203-215 | The record leaves the list before its descriptor is closed, so the invariant holds afterwards and nothing else is gone |
| EpollServer.Server.Admit | server.c:101-132 | An accepted connection gets a descriptor that was not open, a record at the head of the list, and is watched |
| EpollServer.Server.Serve | server.c:134-154 | A ready client's own record is found, then removed and closed |
| EpollServer.ProgressStep | server.c:50-157 | What holds between two events of a batch: the pending events name live registered connections that were there when the batch arrived |
| EpollServer.SameConnection | serverState.c:331-342 | The record found for a pending event is the one its descriptor had when the batch arrived |
| EpollServer.ConsistentAfterRemoval | socket.c:203-215 | Removing by descriptor keeps registered and watched descriptors equal and distinct |
| EpollServer.ConsistentAfterAdmission | socket.c:179-200 | So does adding a connection with a descriptor that was not open |
| ClientLists.ClientList.SetClientConnection | serverState.c:324-329 | The record becomes the first node of an acyclic list |
| ClientLists.ClientList.GetClientConnection | serverState.c:331-342 | The first node with the descriptor, or null |
| ClientLists.ClientList.RemoveClientConnection | serverState.c:344-363 | That node is spliced out, at the head or in the middle, and the list stays acyclic with all others in order |
| ClientLists.RemoveIsWithout | serverState.c:344-363 | With distinct descriptors, removing the first match leaves exactly the clients with another descriptor |
| ConfigMeaning.ConfigurationMeansItsDeclarations | og_ws.y:163-187 | Running the builder in the grammar's order on any syntax tree gives one server per server block in source order plus the default, each with everything its block declares: names and ports without later duplicates, index files, location, autoindex and certificates, or else the defaults; what it frees is what the writes to locations say, and it faults (frees twice, frees a string literal, or uses what is freed) exactly when they do or a second `*` is listened to |
| ConfigMeaning.NothingDeclared | parseConfig.c:414-476 | No directives give one server `*` on 8080 with index.html and the prefix location / at /var/www/ogws/html, and an empty server block gives another one like it |
| ConfigMeaning.HttpBetween | parseConfig.c:681-831 | The state between any two entries of the http block: the pending lists hold their defaults with what earlier blocks did to them, and every server built so far is what its block declares |
| ConfigMeaning.BlockBetween | og_ws.y:244-287 | One server block, from such a state, builds the server it declares and leaves such a state |
| ConfigMeaning.EndServerLocations | parseConfig.c:743-773 | The server's location is what all writes of its block give, and the default keeps the writes in front of the first one that makes a location |
| ConfigLocations.DirectivesFollow | parseConfig.c:838-908 | While a block is read, the pending locations are field by field the last writes so far, over the default; what is freed, and whether that is wrong, is what the writes say: `expires off`, a root over the default's literal, a pass that meets a freed group, frees one again, or frees the one it then reads |
| ConfigLocations.ActFollows | parseConfig.c:286-379 | The same for one write: changing the head or a copy of the default, and freeing its old root or group |
| ConfigLocations.LocationAppend | parseConfig.c:838-868 | One more write changes just the fields it gives |
| ConfigModel.TimesMean | parseConfig.c:884-902 | A written number is that many seconds, with `m` sixty times, with `h` 3600 times as many, with another unit the number itself, and what starts with `off` is 0 |
| ConfigMeaning.DirectivesTrack | og_ws.y:253-271 | While a block is read, the pending names, ports and index files are the declarations so far, newest first, above the default |
| ConfigMeaning.AddNameTracks | parseConfig.c:911-946 | Adding a name to the pending list adds it to the declarations, unless an earlier one has it |
| ConfigMeaning.FirstNamesAre | parseConfig.c:911-924 | The names kept are those declarations that no earlier one shares its name with |
| ConfigMeaning.FirstNamesDiffer | parseConfig.c:911-924 | No two kept names are equal |
| ConfigMeaning.AddWildcardTracks | parseConfig.c:1281-1292 | For `listen *` the name is the grammar's literal: freeing it as a duplicate is a fault |
| ConfigMeaning.AddPortTracks | parseConfig.c:1248-1279 | The same for port numbers, of which only positive ones count |
| ConfigMeaning.MarkTlsTracks | parseConfig.c:1297-1299 | `ssl` marks the newest port, or the default while there is none |
| ConfigMeaning.EndServerMeans | parseConfig.c:681-742 | From any pending lists, f_server builds a server with the declarations in source order, or the defaults |
| ConfigMeaning.EndServerResets | parseConfig.c:698-802 | And leaves only the defaults behind |
| ConfigMeaning.PortNumbers | parseConfig.c:1248-1279 | The numbers of the declared ports are the first occurrences in source order, whatever `ssl` does |
| ConfigMeaning.PortNumbersOfBlock | parseConfig.c:724-742 | A server's port numbers are those its block declares, or 8080 |
| ConfigMeaning.TlsFlagMeaning | parseConfig.c:1297-1299 | A declared port has TLS exactly when some `ssl` option came while it was the newest port, even after a duplicate listen |
| LocationResults.LocationOfServer | parseConfig.c:743-773 | Each server has exactly one location: all writes of its block on top of the carried default, whatever is pending when they come |
| LocationResults.CarriedLocation | parseConfig.c:876-908 | The carried default is the original one after the writes of all earlier blocks that came before anything made a location |
| LocationResults.OwnSettingsOnly | parseConfig.c:838-908 | A server's location is what its own block alone gives exactly when each of expires, match and protocol is written by the block itself or was not changed in the default by an earlier one |
| LocationResults.TrailingLocation | parseConfig.c:807-831 | The last server's location is the original default exactly when no block has changed it |
| LocationResults.OwnPortsOnly | parseConfig.c:1297-1299 | A server's ports are those its own block alone gives exactly when the block declares a port, or begins with `ssl` itself, or no earlier block did |
| LocationResults.TrailingPort | parseConfig.c:807-831 | The last server's port has no TLS flag exactly when no block began its listen options with `ssl` |
| LocationResults.CarriedPort | parseConfig.c:1297-1299 | Nor does the default port, after any entries of the http block |
| LocationResults.OneLocationPerServer | parseConfig.c:1307-1320 | All location blocks of a server write to one location where the last match stays, so all are answered exactly when they all ask for what the last one asks for |
| LocationResults.LastBlockWins | parseConfig.c:1307-1320 | The last location block decides match type and pattern |
| LocationResults.FlagsMean | parseConfig.c:286-379 | Which writes set which of the five flags |
| LocationResults.CheckDocRoots | parseConfig.c:537-560 | True exactly if every location has what its flags ask for |
| Balancing.LocationIsBalanced | processInput.c:143-163 | A server's requests reach the balancer (the program starts, and the location's handler picks from a group that is still there and has a node) exactly when the program starts with the configuration, the write that makes the location is a pass to a group, another pass comes later, there is no try_files, and the last group given was not freed and has a line that is not a backup |
| Balancing.StartsExactly | parseConfig.c:200-223 | The program starts exactly with the default server, when no write faults, no port number has two TLS flags among all blocks and the default, and the location of every block, and the default one, has what its flags need |
| Balancing.LocationOkMeans | parseConfig.c:537-560 | A block's location is accepted exactly if it has a pass to a host where the write that makes it is one or a proxy_pass comes later, and its root is readable otherwise |
| Balancing.BuildUpstreams | og_ws.y:296-343 | Reading a configuration's upstream blocks on linked lists gives its groups in order, each with the lines of every block up to its own |
| Balancing.LinesForIsFirst | parseConfig.c:269-280 | A pass to a name gets the node chain of the first group with that name |
| ConfigBuilder.Build | parseConfig.c:74-92 | The heap version: the server list is acyclic and holds what the functional run of the actions gives for the tree, and no list node belongs to two servers |
| ConfigBuilder.Builder.EndServer | parseConfig.c:681-803 | F_server on linked lists: every node but the default moves to the new server (or the default is copied), names, index files and ports in reverse, locations in order; each pending list is its default again, and no node is on two lists |
| ConfigBuilder.Builder.EndHttp | parseConfig.c:807-831 | F_http: the last server shares the pending lists' nodes, and still no node is on the lists of two servers |
| ConfigBuilder.Builder.AddName | parseConfig.c:931-946 | F_server_name on the list does what the functional action says |
| ConfigBuilder.Builder.AddWildcard | parseConfig.c:1281-1292 | The name half of f_listen for the grammar's literal `*`, with the fault of freeing it |
| ConfigBuilder.Builder.AddPort | parseConfig.c:1271-1279 | The port half of f_listen |
| ConfigBuilder.Builder.MarkTls | parseConfig.c:1297-1299 | F_tls |
| ConfigBuilder.Builder.AddIndex | parseConfig.c:966-975 | F_indexFile |
| ConfigBuilder.Builder.ChangeLocation | parseConfig.c:838-868 | The head location is changed unless it is the default, of which a changed copy goes in front |
| ConfigBuilder.Builder.SetRoot | parseConfig.c:838-868 | F_root, with the fault of freeing the default's literal |
| ConfigBuilder.Builder.SetTry | parseConfig.c:1371-1401 | F_try_files |
| ConfigBuilder.Builder.PassToGroup | parseConfig.c:286-332 | ProxyPassToUpstreamGroup with its two branches' different flags, the old group that it frees, and the fault if that was freed before or is the one whose servers are read next |
| ConfigBuilder.Builder.PassToHost | parseConfig.c:338-379 | ProxyPassToHost |
| ConfigBuilder.Builder.PassTo | parseConfig.c:1435-1460 | F_proxy_pass and f_fastcgi_pass: a group if one has the name, a host otherwise |
| ConfigBuilder.Builder.AddGroup | serverState.c:294-305 | A group is added behind the last one, after a walk over all of them |
| ConfigBuilder.Builder.IsGroup | parseConfig.c:269-280 | IsUpstreamGroup |
| ConfigBuilder.Builder.SetExpires | parseConfig.c:876-908 | F_expires reads the time and changes the head location, even the default |
| ConfigBuilder.Builder.SetExpiresOff | parseConfig.c:876-908 | F_expires for the grammar's literal `off`, with the fault of freeing it |
| ConfigBuilder.Builder.EndLocation | parseConfig.c:1307-1320 | F_location |
| ConfigBuilder.Builder.SetCertificate | parseConfig.c:1207-1218 | The first certificate wins |
| ConfigBuilder.Builder.SetKey | parseConfig.c:1225-1236 | The first key wins |
| ConfigBuilder.Builder.SetProtocol | parseConfig.c:1406-1425 | F_protocol, for the three names that the grammar passes |
| ConfigBuilder.Builder.SetAutoIndex | parseConfig.c:621-624 | F_autoindex |
| ConfigBuilder.Builder.Start | parseConfig.c:415-476 | The defaults each list starts with |
| ConfigBuilder.Builder.RunOptions | og_ws.y:542-573 | The options of a listen directive, in reduction order |
| ConfigBuilder.Builder.RunBody | og_ws.y:433-458 | The directives of a location, in reduction order |
| ConfigBuilder.Builder.RunDirectives | og_ws.y:244-271 | The directives of a server block, in reduction order |
| ConfigBuilder.Builder.RunHttp | og_ws.y:163-186 | The entries of the http block, in reduction order |
| Chains.PendingList.HasPending | parseConfig.c:911-924 | DupName and dupPort: true exactly if a node other than the last has the key |
| Chains.PendingList.HoldsOnlyDefault | parseConfig.c:839-846 | The walk to the default, compared with the head |
| Chains.PendingList.Push | parseConfig.c:938-942 | A new head in front of an acyclic list with the same default at its end |
| Chains.PendingList.MoveToFront | parseConfig.c:697-707 | The moving loop of f_server for names, index files and ports: every node but the default, in reverse |
| Chains.PendingList.MoveToBack | parseConfig.c:751-772 | The moving loop for locations: every node but the default, in order |
| Chains.OwnList.FillReversed | parseConfig.c:693-708 | Copy of a lone default, or all but the default; the pending list is left with its default only |
| Chains.OwnList.FillInOrder | parseConfig.c:743-773 | The same for locations |
| Chains.OwnList.Share | parseConfig.c:817-824 | A list that is the pending list itself |
| Chains.AppendList.Append | serverState.c:255-266 | Walking to the last node and appending keeps the list acyclic and its nodes in order |
| LoadBalancer.WeightedFairness | getUpstreamServer.c:16-29 | From any cursor position, q full rounds and r more picks choose a line of positive weight w between q w and (q + 1 if r > 0) w times, and a backup never |
| LoadBalancer.FairWindow | getUpstreamServer.c:16-29 | From any cursor position, as many picks as the chain is long choose a line of positive weight w exactly w times, and a backup never |
| LoadBalancer.WindowIsWholeChain | getUpstreamServer.c:23-29 | Any window of chain length is a permutation of the chain and brings the cursor back |
| LoadBalancer.PickMany | getUpstreamServer.c:16-29 | Any number of requests walk the node list from the cursor and wrap |
| LoadBalancer.Pick | getUpstreamServer.c:16-29 | One request gets the cursor's server and moves it on; with an empty chain it is a null dereference |
| LoadBalancer.PicksFollowIndices | getUpstreamServer.c:16-29 | The picks are the lines that the counted indices name |
| LoadBalancer.NodesPerLine | parseConfig.c:1334-1345 | A line with positive weight w has w nodes, any other line none |
| LoadBalancer.GroupServesOnlyItsOwnLines | parseConfig.c:1326-1331 | A group's chain is its own lines' nodes exactly when no earlier upstream line had a node, since the pending nodes are never cleared |
| LoadBalancer.PushCopies | parseConfig.c:1334-1345 | The loop of f_upstream puts as many nodes in front as the weight says, none unless it is positive, and keeps those behind |
| LoadBalancer.UpstreamTable.AddBlock | og_ws.y:296-343 | An upstream block adds its lines and then a group over all lines so far |
| LoadBalancer.UpstreamTable.GroupHolds | parseConfig.c:1326-1345 | Every group's list is acyclic, holds the expansion of all lines up to its block, and its cursor is at the head, whatever is read later |
| MimeTypes.FileRoundTrip | parseMimeTypes.c:74-92 | Parsing any printed table (lines indented by any spaces and newlines, gaps of any spaces and tabs, any spaces and newlines before the closing brace) gives back its types and extensions in order, exactly when no gap that starts with a space is followed by a tab anywhere in the file |
| MimeTypes.LayoutExactly | parseMimeTypes.c:80-155 | Character by character, which lines such a table may have |
| MimeTypes.ParsePrinted | parseMimeTypes.c:118-155 | The same from the first line on, whatever text follows the table |
| MimeTypes.ParseMimeTypes | parseMimeTypes.c:37-106 | The in-place parser ends, fails exactly when the functional parser does, and appends that parser's entries to the list |
| MimeTypes.ParseLine | parseMimeTypes.c:118-155 | One line in place: every NUL is written before the returned position, which lies further on; all later text is as it was |
| MimeTypes.SaveExtensions | parseMimeTypes.c:146-152 | The extensions, cut at single spaces, are saved in order with the line's type |
| MimeTypes.LineOfBody | parseMimeTypes.c:118-155 | A printed line whose type is cut off at its gap yields its type and extensions and leaves the following text |
| MimeTypes.GetMimeType | handleGetVerb.c:116-132 | The type of the first entry for the text after the last dot, or the default |
| MimeTypes.FirstEntryIsOfFirstLine | handleGetVerb.c:120-130 | For a table's entries that is the type of the first line with the extension |
| HttpRequest.Request.Process | processInput.c:28-125 | The in-place request parser agrees with the functional parser on every buffer: too large, no data, bad data, null dereference or read past the buffer, or the fields it stores |
| HttpRequest.RequestRoundTrip | processInput.c:73-125 | Parsing any printed request gives back verb, protocol and the target (a bare trailing '?' is dropped), and as host the text of the first "Host: " anywhere; so the Host header's value comes back exactly when no "Host: " stands in front of it, or the first one there is followed, up to the next carriage return there, by the same value |
| HttpRequest.FoundExactly | processInput.c:97-107 | The condition for that, on the text in front of the Host header alone |
| HttpRequest.ParsedExactly | processInput.c:73-125 | Exactly the texts with two spaces, behind them a carriage return, behind that and one more character a "Host: ", and behind that another carriage return can be parsed; a text without a space is bad data, and any other ends in a null dereference or a read past the buffer |
| HttpRequest.OutcomeOfRequest | processInput.c:50-58 | A request of 4096 characters or more is too large, an empty one has no data, and any other is treated as its text is |
| HttpRequest.ForwardedHostIsTaken | processInput.c:97-105 | A witness: with an X-Forwarded-Host header in front, its value is the host |
| HttpRequest.BufferHoldsText | processInput.c:40-60 | A request shorter than the buffer and without NULs is parsed as its text |
| HttpRequest.TakeLine | processInput.c:73-96 | Verb, target and protocol are cut out in place; the text behind them is as it was |
| HttpRequest.TakeHost | processInput.c:97-107 | The host is cut out, or looked for seven characters past the end of the text if there is no "Host: " |
| HttpRequest.FindHost | processInput.c:97-101 | The scan ends at the first "Host: " behind the request line's first end character, or one past the NUL |
| HttpRequest.LineOfInverse | processInput.c:73-96 | A text with a request line is that line, printed, and the rest |
| ProxyPass.ForwardRequest | handleProxyPass.c:28-48 | What is sent upstream is the request with one X-Forwarded-For line at the end of its header section, and unchanged without a blank line |
| ProxyPass.RequestIsDelivered | processInput.c:40-140 | Over any number of further proxies, a request that parses where it starts arrives with only the inserted lines added, is accepted, and parses to the same fields, exactly when it has no NUL, still is shorter than 4096 characters with those lines, its request line ends before its blank line, root and path have at most 255 characters at every hop, and every receive yields all of it |
| ProxyPass.TooManyHops | processInput.c:50-54 | A witness for the length: no request survives 216 hops |
| ProxyPass.NulCutsTheRequest | processInput.c:62-63 | A witness for NULs: what stands behind one is lost at the first hop |
| ProxyPass.LongPathIsRefused | processInput.c:130-140 | A witness for the path: one of more than 255 characters is sent on by no proxy |
| ProxyPass.ShortReceiveCuts | socket.c:87-112 | A witness for receives: what one does not yield is missing from what is sent on |
| ProxyPass.FullLength | processInput.c:40-140 | Whatever the receives yield, a request that comes out as long as it would with all lines inserted has been received whole and accepted at every hop, and is what it should be |
| ProxyPass.RelayRequest | handleProxyPass.c:20-48 | Parsing what one receive yields, checking the length of the path and forwarding, in a row, is one such hop |
| ProxyPass.HopsText | handleProxyPass.c:28-48 | Character by character: if the first CR LF CR LF comes behind the headers h, any number of hops turn h CR LF CR LF b into h, a line "X-Forwarded-For: " with the address for each hop in order, CR LF CR LF, and b |
| ProxyPass.HopsWithoutBlank | handleProxyPass.c:31-33 | A text without CR LF CR LF goes through unchanged |
| ProxyPass.AddressesArrive | handleProxyPass.c:40-43 | Reading the X-Forwarded-For lines of the header section at the far end gives the addresses that were there before and then the address of every hop, in order |
| ProxyPass.HopsInsertAll | handleProxyPass.c:28-48 | On the text alone, after any number of hops the inserted lines stand in order before the blank line; everything else is as it was |
| ProxyPass.HopsAddHeaderLines | handleProxyPass.c:28-48 | On the text alone, the header lines after any number of hops are the original ones followed by the inserted ones in order |
| ProxyPass.HopsKeepRequest | handleProxyPass.c:28-48 | On the text alone, one or more hops leave verb, path, query, protocol and host as parsed exactly when the request line's two spaces come before the blank line |
| ProxyPass.HopsKeepEarly | processInput.c:73-116 | In that case parsing the text gives the same outcome at every hop |
| ProxyPass.HopBlank | handleProxyPass.c:30-36 | One hop inserts one line and moves the blank line behind it |
| ProxyPass.InsertChangesLate | processInput.c:73-96 | Otherwise the inserted line lands in the verb or the target |
| ProxyPass.Socket.SendData | socket.c:117-140 | However the kernel splits the data, all of it is sent once and in order |
| ProxyPass.RelayResponse | handleProxyPass.c:53-74 | The client is sent the pieces up to the first that does not fill the buffer, but only the first one if that has no two spaces, which is a null dereference |
| ProxyPass.WholeResponseRelayed | handleProxyPass.c:53-74 | What is sent is the whole response exactly when every piece but the last fills the buffer and the first one, if it is not the only one, has a status |
| ProxyPass.StatusExactly | handleProxyPass.c:63-74 | A piece has a status exactly when two spaces come before its first NUL |
| IncludeExpansion.ExpandFile | expandIncludeFiles.c:20-74 | For files that do not include each other in a circle the recursion ends and writes the recursive flattening |
| IncludeExpansion.IncludeLine | expandIncludeFiles.c:30-62 | Blanks, "include", blanks, a path, `;` and anything else on the line stand for the expansion of the file with that path if it begins with `/`, otherwise of that path behind the directory, and for nothing if there is no such file |
| IncludeExpansion.IncludeWithoutSemicolon | expandIncludeFiles.c:39-42 | Without a semicolon they stand for nothing |
| IncludeExpansion.OtherLine | expandIncludeFiles.c:67-69 | A line that does not start, after blanks, with "include" stands for itself |
| IncludeExpansion.EveryLine | expandIncludeFiles.c:29-37 | Every text without NULs begins with a line of such a form: blanks, then text that does not start with a blank, then a newline unless it is the last |
| IncludeExpansion.EveryIncludeLine | expandIncludeFiles.c:35-44 | And if that text starts with "include" and has a `;`, it is an include line with a gap and a path |
| IncludeExpansion.RankingExists | expandIncludeFiles.c:20-74 | A ranking of the files by which the recursion ends exists exactly when no file brings itself in, directly or through others |
| IncludeExpansion.EveryTextIsBelow | expandIncludeFiles.c:20-74 | The number of files each one reaches is such a ranking, with a bound for every text |
| IncludeExpansion.RankDoesNotMatter | expandIncludeFiles.c:20-74 | The flattening does not depend on how the files are ranked |
| IncludeExpansion.OutputHasNoIncludes | expandIncludeFiles.c:34-71 | From newline-terminated files no output line begins, after blanks, with "include" |
| IncludeExpansion.ExpandingTwice | expandIncludeFiles.c:20-74 | Expanding the output again changes nothing |
| IncludeExpansion.ExpandedIffNoIncludes | expandIncludeFiles.c:20-74 | A text is its own expansion exactly when it has no include line |
| IncludeExpansion.OutputIsSafe | expandIncludeFiles.c:29-71 | For any files at all, the output has no include line exactly when no line that follows unfinished ones begins with "include" together with them |
| IncludeExpansion.ExpansionIsSafe | expandIncludeFiles.c:29-71 | The same for an expansion with any unfinished line in front of it and any text behind it |
| IncludeExpansion.HarmlessFragment | expandIncludeFiles.c:34-37 | An unfinished line is harmless whatever follows unless it is blank or the start of "include" |
| IncludeExpansion.UnterminatedFileRunsOn | expandIncludeFiles.c:64-71 | A witness: an unfinished last line and the line behind the include can make an include line that was in no file |
| IncludeExpansion.FlattenAppend | expandIncludeFiles.c:29-71 | Newline-terminated texts expand one after the other |
| Startup.StartProcesses | ogws.c:112-168 | Parent and children hold exactly the planned entries, one each; with none planned it is a null dereference |
| Startup.EveryPortServed | ogws.c:115-130 | Each listed port is served by exactly worker_processes processes, no other port by any, each with the first server that lists the port and that server's TLS flag |
| Startup.KeptServers | serverState.c:277-288 | With the default server on or off, which blocks' servers are left on the list, and whether the trailing one is |
| Startup.DeclaredPortsAreServed | ogws.c:115-130 | From the configuration on, with the default server on or off: a port is served exactly when some block whose server is left declares it, or it is 8080 and the trailing server is left |
| Startup.UniquePort | ogws.c:94-104 | True exactly if no planned entry has the port |
| Startup.AddEntries | ogws.c:119-127 | One entry per worker process in front of the plan |
| Startup.Fork | ogws.c:136-158 | The fork loop hands out the entries in order, the last one to the parent |
| Startup.ContextServer | tlsServer.c:146-165 | ConfigureContext finds the first server that lists the port, the one the process was started with |
| Startup.CheckServers | parseConfig.c:200-223 | The checks accept exactly when no port number has two TLS flags anywhere on the checked list and every server has names, index files and locations with what their flags ask for |
| Startup.PortOk | parseConfig.c:247-263 | The check of one server against all |
| Startup.CheckPorts | parseConfig.c:230-244 | The check of one port against all |
| Startup.FlagsAgree | ogws.c:119-123 | Once the checks accept, a process's flag is that of every server on its port |
| Startup.PopRemovesTheDefault | serverState.c:277-288 | Switching the default server off takes the first declared server away, since f_http puts the default last; the declared servers are left exactly when all of them are like the default |
| Startup.OpenLogFiles | parseConfig.c:502-532 | Two logs of one list end with the same descriptor exactly when their paths are equal, open is asked once per distinct path, and it fails exactly when some path cannot be opened |
| Startup.PathAlreadyOpened | parseConfig.c:483-496 | The descriptor of an entry with this path, or -1 if none is open |
| Routing.ServerForHost | processInput.c:202-231 | The first server with exactly this name and port, else the head of the list, or none when defaults are off |
| Routing.HostParts | processInput.c:202-211 | A Host value with `:` and a number gives name and number, one without gives itself and the default port |
| Routing.FirstServing | processInput.c:212-224 | The position of the first server on the list that has this exact name and this port |
| Routing.PortListed | processInput.c:189-199 | HasPort |
| Routing.ServesWhatIsDeclared | processInput.c:212-220 | The k-th server takes a name and port exactly when the k-th block declares them, or its defaults apply |
| Routing.FirstDeclaringBlockAnswers | processInput.c:202-231 | For a configuration, with the default server on or off: a name and port are answered by the first block still on the list that declares them; if none does, by the trailing server for `*` and 8080, and otherwise by the head of the list or by none |
| Routing.DocRoot | getDocRoot.c:24-42 | The first location in list order that matches by pattern, prefix or equality |
| Routing.MatchesExactly | getDocRoot.c:24-42 | A prefix location takes exactly the paths that continue its pattern, an exact one only its pattern, a regular expression what it matches, and one without a match nothing |
| Text.Strchr | parseMimeTypes.c:118-127 | The first occurrence before the NUL, or null |
| Text.Cut | parseMimeTypes.c:128-144 | Writing a NUL splits a string in two and changes nothing else |
| Text.AtoiReads | processInput.c:206-208 | Reading a written number gives it back, with blanks and a sign in front and text behind |

## Left out

- Socket, epoll, sendfile and OpenSSL calls: they are oracles (a fresh descriptor, how much a send takes, a reference taken or dropped).
- Receive errors and negative send results: the code closes the descriptor early or loops there, and the invariants do not survive it. A receive yields at least one character or nothing, and a send takes at least one.
- ProxyPass.Socket.SendData: does not state the returned count of the last send, which no caller uses, and leaves out the SSL_write_ex branch.
- LoadBalancer.Pick: treats a pick as atomic, as it is in the single-threaded server; the code moves the cursor without a lock, so picks from several TLS threads can race.
- ConfigBuilder.Build: the parameter of UpstreamBlock with the lines is not used here: upstream blocks only leave their names; their node lists are built by Balancing.BuildUpstreams. The heads of the group list are a sequence of names, and try_files targets travel as a sequence with the directive.
- The branches of f_server and f_location that supply a missing document root: every location is a copy of the default, which has a root, so they are never taken.
- Sharing of string memory: strings are values. What the builder frees in a location is modelled for its root (whether it is the default's literal) and its group (whether it is still on the list or freed again); the address it passes to has no other user.
- Debug output: with it switched on, f_server_name prints a duplicate name that it has just freed.
- Default log entries and per-server log directives; host name resolution of proxy targets; worker, user, pid, default_type, keepalive, fastcgi_param and other directives that no list depends on.
- Startup.Fork: a failing fork or prctl ends the process and is not modelled.
- Startup.CheckServers: which document roots are readable is a parameter. The log checks always pass, since there are default logs, and the certificate checks depend on a flag that nothing sets.
- Startup.PopRemovesTheDefault: popServer also frees the log entries of the server it removes, which stay on the lists that openLogFiles walks; logs are not tied to servers here, and Balancing.Starts takes a configuration without the default server as one that fails.
- Balancing.LocationIsBalanced: a request for a location with try_files goes to its handler, which may or may not pass it on depending on the file system; it does not count as reaching the balancer. Host names are taken to resolve, and pid and log files to open.
- ProxyPass.RequestIsDelivered: takes each hop to be routed to its proxy; the choice of server and location is Routing's.
- Startup.StartProcesses: walks the finished, read-only server and port lists as sequences; so do the routing searches.
- Routing.ServerForHost: atoi is on unbounded integers; wildcard server names are matched literally because the code does that too.
- Routing.DocRoot: the regular expression engine is an arbitrary predicate.
- Startup.OpenLogFiles: which paths cannot be opened is a parameter; both log lists are handled by the same method.
- EpollServer.Server.HandleBatch: a batch names each descriptor at most once, as epoll_wait guarantees; epoll_wait failures end the loop and are not modelled.
- TlsServer.StepKeepsInv: malloc, pthread_create and SSL_new do not fail; a handler is any sequence of opening and closing files and looking up its client.
- HttpRequest.Request.Process: ends where a server is chosen; the length check on the path is part of ProxyPass.RelayRequest.
- IncludeExpansion.ExpandFile: needs the files not to include each other in a circle (IncludeExpansion.RankingExists); otherwise the program recurses until it runs out of descriptors.
- ProxyPass.RelayResponse: the status code and size go to the access log only, so their values are not stated beyond the size.
- handleFastCGIPass.c: repeats the forwarding of handleProxyPass.c and would add no new property.
- handleTryFiles.c, showDirectoryListing.c, sendErrorResponse.c, daemonize.c, parseArgs.c, log.c, getTimestamp.c and the plain setters and getters: file-system decisions, text formatting and plumbing that would only add easy members.
- The flex lexer: the model starts from syntax trees. SSL directives that only print that they are not implemented have no effect.
