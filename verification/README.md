# Window replication: a verified model

A server watches the windows of a Windows desktop. Four times a second it lists them, compares the listing with
the previous one, and tells every connected client which windows were closed, which were opened and which one
came to the foreground. A client rebuilds from these messages a mirror of the desktop: the known applications, the
focused one, and how long each has been focused. Clients also ask the server to inject keystrokes into the
foreground window. This project models both ends and what lies between them, and proves what they keep over every
run, every interleaving of the server's threads and every way of cutting the byte stream.

`dafny verify dfyconfig.toml` checks everything.

## How the files fit together

- `Wire`, `Framing`: messages, the serializer as a parameter, and length-prefixed framing as a function of the bytes alone.
- `MessageStreams`, `Protocols`, `Connections`, `Clients`: the client's objects, from the socket's bytes to the
  displayed applications. Each method is proved against a value model: `Scan` for the decoder, `Proto` for the
  protocol object, `Conn` (in `Mirror`) for the connection. The theorems are about these models and so reach the objects.
- `FocusTime`: the focus clock against a definition by history, and against the time connected.
- `ClientLists`, `WindowsLists`: the server's differ and the client objects it writes to.
- `Replication`, `EndToEnd`: replaying the server's notes on a client; then the whole system, with any number of
  clients that join at any time and a network that delivers any number of bytes at a time. `Convergence` and
  `EveryDeliveredRound` are the main results.
- `Requests`, `SocketIO`, `Keystrokes`: requests and responses, the server's exact-size reads and writes and its
  request loop, and the injection of keys.
- `Pool`, `PoolSafety`, `PoolNodes`, `PoolTheorems`, `PoolLimits`: the server's threads as a machine whose steps are
  what one thread does between two points at which another may run, lock by lock and, inside a lock, statement by statement.
- `AppRows`, `Icons`: the client's table of rows, and the icon's pixel buffer.
- `Assertions`: no run of `EndToEnd` trips the client's assertion on application ids. `Reports`: what its clients report
  as responses the server gave.
- `Serializers`, `Instances`: a lawful serializer, and runs that meet the hypotheses of `EndToEnd`.

## What the model assumes

- The serializer is any six functions for which parsing undoes serializing, events and requests fit the 32-bit
  length prefix, and a message is empty exactly when nothing in it is set (`Wire.Codec.Lawful`). A client joins only
  while the serialized listing fits the prefix too (`ClientLists.Fits`). `Serializers` builds such a serializer and
  proves it lawful; `Instances` gives runs that meet the hypotheses of the results about all runs.
- The handles that occur can be told apart by their low 32 bits, and none of them looks like the reserved id
  (`Replication.Faithful`): the client truncates 64-bit ids. The handle announced when focus is lost does look like it.
- A client joins in one step: it is entered in the list of active clients and gets the listing and the focus
  before any other thread acts. The code lets a notification fall between the two (`pds_server/pds_server/pds_server.cpp:71-72`).
- A response frame is written between notification frames, not into one: `readMessage` writes without the lock that
  `sendMessage` takes (`pds_server/pds_server/Client.cpp:167-171`, `189`). In `EndToEnd` clients ask and are answered at
  any time, with any response.
- In the theorems about the stream a write puts all its bytes on the wire. What `sendN` does when `send` takes less is
  stated separately (`SocketIO.SendN`): it succeeds exactly if one single `send` takes everything.
- A socket connects only while it is not connected, and the clock does not go back. Times are nanoseconds, elapsed times
  whole milliseconds.
- A connection is added to the table of applications once.
- Messages that are reported carry, read the way the protocol object reads them in its state, no application id that
  trips the assertion at `client/app.cpp:28` (`Clients.AcceptableMessage`). In the whole system this is not an assumption:
  `Assertions` proves it of every client in every run.
- Enumerating windows yields a sorted set, as `std::set` iterates it; which windows it contains, and which window is
  in the foreground, is arbitrary at every look.

## Where the code does less than one would expect

Each of these is proved; where the code meets the expectation under some condition, that condition is proved to be exact.

- A client that joins while no window is listed gets an empty first message, and its decoder spins on it for ever
  (`Framing.StuckForever`). A client that was delivered everything is stuck exactly if no window was listed when it
  joined (`EndToEnd.EmptyJoinHangs`); `Instances.EmptyDesktopSticks` is such a run.
- A read that fails while a message is being read loses the length of that message and what had been read of it
  (`MessageStreams.MessageStream.ReadyRead`). In a stream of non-empty messages the rest of the stream is decoded to the
  rest of the messages if and only if the read that failed was to bring a length
  (`MessageStreams.FailureHarmless`); `MessageStreams.MisframingRun` is a decoder that reports a message never sent.
- The comment at `pds_server/pds_server/WindowsList.cpp:67` says that the focus of a window that is not listed yet is
  notified on the next check. The code never does that: the model follows the code. `WindowsLists.FocusAnnounced` says
  when a window is announced, `WindowsLists.LateListingUnannounced` gives the two rounds that show the difference.
- A node can leave the list of active clients while its worker is still inside `serve`
  (`PoolLimits.RemovedInsideServe`). It does so exactly in a sweep by another worker after this one has marked the
  client, which came with a socket, closed; no other step of any thread removes it (`PoolTheorems.RemovedExactly`).
- A client whose `accept` failed is never marked closed and stays in the list for good. With `n` workers and at most `f`
  failed accepts the list stays within a bound in every run if and only if `n + f` does (`PoolLimits.BoundExact`): the
  size of the pool bounds it exactly if no accept fails (`PoolLimits.PoolSizeBound`).
- A request sent under an id that is still pending is not recorded, and its response is reported for the older request
  (`Requests.ReuseShadows`). The table of pending requests stays exact if and only if the next id is not pending
  (`Requests.SendExactly`), and some run of `k` requests reuses a pending id if and only if `k` is at least 2^32
  (`Requests.ReusePossible`).
- A key injection reported as successful can leave keys down if the desktop took only part of a batch
  (`Keystrokes.StuckKeys`), and one that took whole batches releases keys the user was holding (`Keystrokes.AllOrNothing`).

## Model

| member | source | states |
|---|---|---|
| EndToEnd.Convergence | pds_server/pds_server/WindowsList.cpp:36-83 | for any clients joined at any rounds, any listings and foreground windows, and any cut of the bytes: a client that has been delivered everything knows exactly the listed windows; its focused application is the foreground window if that was listed when last announced, else none; an application is lit exactly if it is the foreground window and has been listed without a gap since the later of its becoming that and the join |
| EndToEnd.EveryDeliveredRound | client/connection.cpp:65-113 | the same of a client that lags behind: whenever it has been shown exactly what the server had told it by some earlier moment, it reflects the server as of that moment |
| EndToEnd.RunExtends | pds_server/pds_server/ClientList.cpp:17-23 | a run only ever adds rounds, clients and, behind what each client was sent before, messages |
| EndToEnd.EmptyJoinHangs | client/messagestream.cpp:56-91 | a client that has been delivered everything is stuck, and then knows nothing, exactly if no window was listed when it joined |
| Instances.EmptyDesktopSticks | client/messagestream.cpp:77-79 | for every lawful serializer, a run in which a client that joined an empty desktop has been delivered everything and is stuck |
| Instances.OneWindowMirrored | pds_server/pds_server/pds_server.cpp:69-75 | a run in which a client that joined a desktop with one window in the foreground shows just that, focused and lit |
| Instances.LaggingClient | pds_server/pds_server/pds_server.cpp:69-82 | a run in which a later round is not delivered and the client shows the desktop as of its join |
| Instances.SerializerRuns | pds_server/pds_server/pds_server.cpp:69-82 | under that serializer, without any hypothesis, there are runs with a stuck client, a converged one and one that lags behind |
| Serializers.SerializerLawful | proto/protocol.proto:6-68 | some serializer of the messages, not the one of the protocol buffers library, meets every law asked of one and fits every listing of fewer than 2^29 windows |
| EndToEnd.NeverOutOfOrder | client/messagestream.cpp:56-91 | at every moment a client shows the effect of a prefix of what it was sent, and no message that has arrived completely is missing from it |
| EndToEnd.NotifyKeeps | pds_server/pds_server/ClientList.cpp:17-23 | a round keeps, for every client, that replaying all it was ever sent gives the server's present state |
| EndToEnd.RespondKeeps | pds_server/pds_server/Client.cpp:149-171 | any response frame, put behind what was sent before, keeps that agreement too |
| Assertions.DeliveriesAcceptable | client/app.cpp:26-28 | in every run the messages any further delivery completes carry, for the state the client is in, no application id that trips its assertion |
| Assertions.SlotAcceptable | client/app.cpp:26-28 | so a decoder that holds those bytes meets the precondition of the client objects, whichever of its reads fail |
| Reports.ReportsWereGiven | pds_server/pds_server/Client.cpp:187-243 | in every run a client reports only responses the server gave to it: rounds and joins never make a client report one |
| Reports.NotesReceived | client/clientprotocol.cpp:84-104 | a client that accepts events and receives the notes of any rounds gives exactly their signals, and its protocol object, pending requests included, is unchanged |
| Reports.SnapshotReceived | pds_server/pds_server/Client.cpp:57-121 | what a joining client is sent gives it the listing and then the focus, and leaves its pending requests alone |
| EndToEnd.JoinStarts | pds_server/pds_server/Client.cpp:57-121 | the two messages of a join, replayed on a fresh client, give the server's state at that moment |
| EndToEnd.DeliverKeeps | client/messagestream.cpp:32-98 | delivering any number of bytes keeps what was received, what is in flight and what is shown in agreement |
| Replication.RoundKeepsMirror | pds_server/pds_server/WindowsList.cpp:42-82 | replaying the notes of one round on a mirror of the old state gives a mirror of the new one, focus and highlighting included |
| Replication.ListingReplay | pds_server/pds_server/WindowsList.cpp:42-65 | removing the closed and adding the opened windows turns the ids of the old listing into those of the new one |
| Replication.SnapshotMirrors | pds_server/pds_server/Client.cpp:68-92 | the listing and the focus sent to a joining client make it a mirror whatever it showed before |
| Replication.HistoryStep | pds_server/pds_server/WindowsList.cpp:68-81 | the step-by-step rule for the announced and the lit window agrees with its reading off the history of rounds |
| WindowsLists.WindowsList.Update | pds_server/pds_server/WindowsList.cpp:36-83 | afterwards the listing is the new one and the focus the last one seen; every client with a socket got exactly the frames of the round's notes, in order, after what it had got before (what they do to a client: `Reports.NotesReceived`) |
| WindowsLists.DifferenceIsSetDifference | pds_server/pds_server/WindowsList.cpp:44-59 | merging two sorted ranges yields exactly their set difference, sorted and without repetition |
| WindowsLists.RoundAnnouncesChanges | pds_server/pds_server/WindowsList.cpp:42-81 | a round announces exactly the closed and the opened windows, each once, the closed ones first and the focus last |
| WindowsLists.FocusAnnounced | pds_server/pds_server/WindowsList.cpp:67-81 | a round announces a window as focused if and only if it is in the foreground, listed, and another one was seen in the foreground last |
| WindowsLists.LateListingUnannounced | pds_server/pds_server/WindowsList.cpp:67-74 | two rounds after which a listed foreground window has not been announced, against the comment |
| WindowsLists.AnnounceAll | pds_server/pds_server/WindowsList.cpp:47-52 | every client got one more frame for each handle, in order |
| ClientLists.Client.Accepted | pds_server/pds_server/Client.cpp:25-28 | a client owns the accepted socket, or none if the accept failed, and is not closed |
| ClientLists.Client.Moved | pds_server/pds_server/Client.cpp:50-55 | moving hands over the socket and the closed mark, and leaves an object without a socket that is marked closed |
| ClientLists.Swap | pds_server/pds_server/Client.cpp:43-47 | the two clients exchange everything they hold |
| ClientLists.Client.CloseConnection | pds_server/pds_server/Client.cpp:176-185 | a socket is closed and given up and the client marked closed; without a socket nothing changes, the mark included |
| ClientLists.Client.Destroy | pds_server/pds_server/Client.cpp:18-23 | destroying a client closes the socket it still has |
| ClientLists.Client.SendProcessList | pds_server/pds_server/Client.cpp:57-121 | the client's socket gets the length cut to 32 bits and the listing, whose ids read back are the windows in order, then the framed focus, nothing else: two frames if the listing fits the prefix |
| ClientLists.Client.SendMessage | pds_server/pds_server/Client.cpp:187-243 | the client's socket gets one frame; read back, its event says that the window was opened, closed or focused, by its status, and has no other field set |
| ClientLists.ClientList.AddClient | pds_server/pds_server/ClientList.cpp:7-15 | the contents move into a fresh last node; counter, distinctness of sockets and openness are kept |
| ClientLists.ClientList.GetClient | pds_server/pds_server/ClientList.cpp:26-34 | the contents of the first node move out, and destroying the emptied node closes no socket |
| ClientLists.ClientList.Notify | pds_server/pds_server/ClientList.cpp:17-23 | every client with a socket gets the frame once, after what it had got before |
| ClientLists.ClientList.Cleanup | pds_server/pds_server/ClientList.cpp:42-47 | exactly the clients marked closed go, of any two that stay the one that came first still does, and the counter is the length |
| ClientLists.StillOpenMembers | pds_server/pds_server/ClientList.cpp:45 | what cleaning up keeps is exactly the clients not marked closed, each once |
| ClientLists.StillOpenInOrder | pds_server/pds_server/ClientList.cpp:45 | of any two clients not marked closed, the one that came first in the list comes first in what is kept |
| Framing.ScanResumes | client/messagestream.cpp:56-91 | cutting a stream anywhere and resuming from the unfinished bytes gives the frames, the rest and the progress of the uncut stream |
| Framing.DecodeUndoesEncode | client/messagestream.cpp:56-107 | decoding encoded messages gives them back if and only if none of them is empty, and then leaves nothing over |
| Framing.EncodeUndoesDecode | client/messagestream.cpp:56-107 | every byte string is the encoding of the non-empty frames decoded from it followed by the undecoded rest |
| Framing.ScanPrefix | client/messagestream.cpp:56-91 | any first part of a stream of non-empty messages decodes to the first messages, in order, and misses none that is complete |
| Framing.StuckForever | client/messagestream.cpp:77-79 | once an empty frame has a byte behind it, nothing more is decoded whatever arrives |
| Framing.BigEndianRoundTrip | client/messagestream.cpp:69 | reading a length undoes writing it, for every 32-bit value |
| Framing.BigEndianOrder | client/messagestream.cpp:104 | the most significant byte is written first: lengths are ordered as their four bytes are in the dictionary |
| MessageStreams.MessageStream.ReadyRead | client/messagestream.cpp:32-98 | from any earlier state and whichever reads fail, reports, losses and the state left are a function of the pending bytes and the reads that fail. Without a failure the messages reported, the bytes left and the spinning on an empty frame are those of the pending bytes taken as one stream; with one the messages reported are the first of those, and bytes are lost, those taken of one unfinished message, exactly if the failed read was not that of a length |
| MessageStreams.PassMeans | client/messagestream.cpp:56-97 | that function explains the bytes: what is reported, lost and left makes them up, and it ends with a failure exactly if one of its reads fails |
| MessageStreams.FailureHarmless | client/messagestream.cpp:65-97 | in every stream of non-empty messages, whatever the state and the later arrivals: after a failed read the rest decodes to exactly the rest of the messages if and only if the failed read was that of a length |
| MessageStreams.MisframingRun | client/messagestream.cpp:65-97 | a decoder on a device with one message, itself the frame of another: the read after that of the length fails, nothing is reported, and the next pass reports the other message, which was never sent |
| MessageStreams.MessageStream.ReadLength | client/messagestream.cpp:57-72 | taking the length off the device keeps the bytes the decoder stands for, or fails, exactly when the read does, without consuming any |
| MessageStreams.MessageStream.ReadData | client/messagestream.cpp:74-86 | moving bytes into the buffer keeps the bytes the decoder stands for; at most 1024 are moved, and fewer only if the message is complete or the device empty |
| MessageStreams.MessageStream.SetDevice | client/messagestream.cpp:16-30 | a change of device drops the half-read message exactly if there was a device before, and keeps the invariant of the decoder |
| MessageStreams.MessageStream.Reset | client/messagestream.cpp:109-113 | the half-read message is forgotten, no byte is awaited, and the invariant of the decoder holds |
| MessageStreams.MessageStream.SendMessage | client/messagestream.cpp:101-107 | the device gets the big-endian length cut to 32 bits and then the data: one frame if the data is shorter than 2^32 |
| MessageStreams.AnyCutIsNoCut | client/messagestream.cpp:32-98 | however a stream is cut into arrivals, the decoder reports and keeps what it would for the uncut stream |
| MessageStreams.SendThenReceive | client/messagestream.cpp:32-107 | sent messages arrive, in every cut, exactly as sent if and only if none was empty |
| Mirror.ApplySound | client/connection.cpp:49-113 | every signal keeps: only the application named as focused can be lit and its timer runs; objects are distinct and none in use awaits deletion |
| Mirror.AtMostOneFocused | client/connection.cpp:49-113 | after any signals at any times at most one application is focused, it is the one named, and its timer is valid when its focus time is read |
| Mirror.CreatedInOrder | client/connection.cpp:58-83 | of two new ids in a list the one that comes first is created first |
| Mirror.ApplyAllView | client/connection.cpp:49-113 | what is shown does not depend on the clock: forgetting it commutes with every sequence of signals |
| Connections.App.constructor | client/app.cpp:11-18 | a new application is not focused, has no running timer and no focus time |
| Connections.App.ResetFromMessage | client/app.cpp:26-32 | id taken over, focus and total cleared, and the timer left as it was |
| Connections.App.SetFocused | client/app.cpp:49-63 | a change to focused starts the timer now, one to not focused adds the elapsed milliseconds and stops it; no change does nothing |
| Connections.App.FocusTimeMS | client/app.cpp:65-73 | the total plus the running interval; the timer is valid whenever it is read |
| Connections.Connection.Reset | client/connection.cpp:49-56 | no application is left, none is focused, and every object is handed over for deletion |
| Connections.Connection.CreateApp | client/connection.cpp:65-83 | an unknown id gets a fresh object, which is announced, a known one is reset in place and not announced; every object stays under its own id |
| Connections.Connection.SetAppList | client/connection.cpp:58-63 | the applications are those of the list, created in order after a reset, the same id twice once; each object created is announced, in order, and is still known afterwards |
| Connections.Connection.DestroyApp | client/connection.cpp:85-97 | the application goes and is handed over for deletion; an unknown id changes nothing |
| Connections.Connection.SetFocusedApp | client/connection.cpp:99-113 | the former application loses focus; a known one gains it, an unknown one leaves none focused |
| Connections.Connection.FocusedApp | client/connection.cpp:115-121 | the object under the focused id, or null exactly if there is none |
| Connections.Connection.Apps | client/connection.cpp:123-129 | every application's object, each once |
| Connections.Connection.TimeConnectedMS | client/connection.cpp:131-136 | the number of whole milliseconds that fit between the last connect and now, and 0 while not connected |
| Connections.Connection.ResetConnectionTime | client/connection.cpp:36-40 | only the start of the connection changes |
| Connections.Connection.Dispatch | client/connection.cpp:17-23 | each signal of the protocol object has the effect of its slot, exactly the objects it creates are announced, and the connection stays sound |
| FocusTime.FocusTimeIsIntervals | client/app.cpp:26-73 | an application's focus time is the sum, in whole milliseconds each, of its focus intervals since its last reset |
| FocusTime.LiveFocusTime | client/app.cpp:26-73 | the same after any history of connections, disconnections and messages, over the signals it comes down to |
| FocusTime.LiveIsTrace | client/connection.cpp:9-23 | whatever the history, a connection is what its signals make of it, one by one, and the time it was made |
| FocusTime.FocusWithinConnection | client/app.cpp:49-73 | after any history of connections, disconnections and messages the focus times of all applications together do not exceed the time connected |
| FocusTime.ClockIsLastConnect | client/connection.cpp:36-40 | the connection time counts from the last time the socket connected, whatever arrived since |
| Protocols.ClientProtocol.SetSocket | client/clientprotocol.cpp:18-38 | a new socket stops a running protocol, forgets pending requests and starts at once if it is open; the same socket changes nothing |
| Protocols.ClientProtocol.Start | client/clientprotocol.cpp:40-44 | the protocol waits for the list again, and keeps its id counter and pending requests |
| Protocols.ClientProtocol.HardStop | client/clientprotocol.cpp:57-66 | a running protocol stops and says so; a stopped one is silent |
| Protocols.ClientProtocol.ReceiveMessage | client/clientprotocol.cpp:68-104 | a message is the list, or an event whose fields are reported in the source's order, or ignored, by state; a response is reported only for a pending request |
| Protocols.ClientProtocol.TakeId | client/clientprotocol.cpp:106-110 | from every starting value the next id is found within two increments and is not the reserved one |
| Protocols.ClientProtocol.SendRequest | client/clientprotocol.cpp:112-127 | the request goes out in one frame under a fresh id and otherwise as it was given, every field, and is recorded like that unless that id is pending |
| Protocols.IdsCount | client/clientprotocol.cpp:106-110 | the k-th id after the counter stood at n is (n + k) mod (2^32 - 1) |
| Protocols.IdsDistinct | client/clientprotocol.cpp:106-110 | no id is the reserved one, and any 2^32 - 1 consecutive ids are pairwise different |
| Protocols.StateIsHistory | client/clientprotocol.cpp:40-104 | in every run the state says exactly whether the protocol was started and not stopped since, and whether a message came since |
| Protocols.MessagesByHistory | client/clientprotocol.cpp:68-104 | the first message after a start is delivered as the list, later ones only as events, and none while stopped |
| Protocols.StoppedOncePerStart | client/clientprotocol.cpp:40-66 | between two reports of having stopped there has been a start |
| Protocols.ControlsSpeak | client/clientprotocol.cpp:40-66 | in every run a start is silent, and a request to stop is answered exactly if the protocol was started and not stopped since, by saying so |
| Protocols.EventSpeaks | client/clientprotocol.cpp:84-102 | a signal is given for an event if and only if it reports one of its fields; for a response, if and only if its request is pending, and with that request |
| Protocols.EventOrder | client/clientprotocol.cpp:84-102 | each field is reported at most once, created before destroyed before focus before response, and exactly the answered request leaves the table |
| Clients.SocketReadyRead | client/messagestream.cpp:32-98 | decoder, protocol and connection objects together do, for every arrival and whichever reads fail, what the value model of a client does with the messages the pass reports |
| Clients.MessageReceived | client/clientprotocol.cpp:68-104 | one message has the effect of its signals, in order, on the connection |
| Requests.PendingIsUnanswered | client/clientprotocol.cpp:84-127 | in every run that reuses no pending id the pending table is exactly the sent requests not yet answered, and each request was reported at most once, with itself |
| Requests.StrayResponseIgnored | client/clientprotocol.cpp:84-92 | a response with an id never sent, or already answered, changes nothing and reports nothing |
| Requests.OneReplyPerRequest | pds_server/pds_server/Client.cpp:133-172 | in every run the server has answered each request it served once, in order and with its id |
| Requests.ResponsesAreOwn | client/clientprotocol.cpp:84-92 | in every run that reuses no pending id the requests served are sent ones, each once and in order, and what is reported for a request is the reply computed when that very request was served |
| Requests.NothingLost | pds_server/pds_server/Client.cpp:133-172 | while the connection lasts every request sent is served or still on its way, in order |
| Requests.SentAsAsked | client/clientprotocol.cpp:112-127 | in every run the k-th request sent agrees with the k-th one the user asked for in everything but the id |
| Requests.ServedAsAsked | pds_server/pds_server/Client.cpp:147-155 | and so does every request the server decodes, each one once and in order |
| Requests.RepliesTruthful | pds_server/pds_server/Client.cpp:147-161 | in every run each reply says success if and only if, when it was given, its request named the foreground window and the injection worked |
| Requests.ReportsTruthful | pds_server/pds_server/Client.cpp:147-161 | what a client reports for a request says success if and only if that very request was served in that case |
| Requests.TakeNextReceives | client/clientprotocol.cpp:84-102 | taking a response in a run is what the protocol object does with its bytes: the same table, and the same report or none |
| Requests.NoReuseBeforeWrap | client/clientprotocol.cpp:106-127 | fewer than 2^32 requests reuse no pending id |
| Requests.NextIdFree | client/clientprotocol.cpp:106-127 | before the counter comes round, the next id is not pending |
| Requests.SendExactly | client/clientprotocol.cpp:112-127 | sending a request keeps the pending table exact if and only if the next id is not pending |
| Requests.ReuseShadows | client/clientprotocol.cpp:84-127 | in every run, right after a pending id is given out again the new request is unanswered and not recorded, the table is not exact, and the next response with that id is reported for an older unanswered request |
| Requests.ReusePossible | client/clientprotocol.cpp:106-127 | some run of k requests reuses a pending id if and only if k is at least 2^32 |
| SocketIO.ReadN | pds_server/pds_server/Client.cpp:246-283 | true exactly if the stream has the bytes and they come before a failure; then the buffer holds exactly the next bytes in order, nothing beyond is consumed and the rest of the buffer is untouched |
| SocketIO.SupplyEnds | pds_server/pds_server/Client.cpp:256-279 | whatever comes after a failed select, a failed receive or the end of the connection supplies nothing |
| SocketIO.SupplyWaits | pds_server/pds_server/Client.cpp:266-268 | being told to call again makes no difference to the supply |
| SocketIO.SupplyArrives | pds_server/pds_server/Client.cpp:259-273 | what a receive brings before any failure, a byte at least, is added to the supply |
| SocketIO.SendN | pds_server/pds_server/Client.cpp:286-299 | true exactly if one single send takes everything after sends that took nothing; then exactly the buffer went out once, and in every case a first part of it |
| SocketIO.ReadMessage | pds_server/pds_server/Client.cpp:123-174 | exactly the requests that come before the first failed or oversized read are taken off the stream, frame by frame, and each gets one framed response in order, under its id and saying success exactly if it named the foreground window and its keys were injected |
| SocketIO.ReadFrame | pds_server/pds_server/Client.cpp:132-145 | a frame is read off the front of the stream if and only if its length and its bytes come before a failure and the length is below 2^31 |
| SocketIO.Respond | pds_server/pds_server/Client.cpp:149-171 | one frame goes out; read back, it is a response under the request's id that says success if and only if the request names the foreground window and the injection worked |
| SocketIO.FramesPrefixFree | pds_server/pds_server/Client.cpp:132-145 | if the encoding of some frames is a first part of the encoding of others, they are the first of those |
| SocketIO.RequestsReadBack | pds_server/pds_server/Client.cpp:132-171 | what the server reads off a client's requests are those requests, in order, and the i-th response, read back, carries the i-th request's id and says success exactly for the foreground window and an injection that worked |
| Keystrokes.SendKeystroke | pds_server/pds_server/ProcessWindow.cpp:179-214 | an unknown key injects nothing; else the keys are pressed in at most five slots and released if any press went through. With whole batches the log grows by twice as many events as there are modifiers set and one, the modifiers of the request pressed in the order Ctrl, Alt, Shift, Win and the key last, then the same keys released |
| Keystrokes.PressAndRelease | pds_server/pds_server/ProcessWindow.cpp:202-213 | the second batch releases exactly the keys of the first; success means that both batches inserted something |
| Keystrokes.WholeBatchesSpell | pds_server/pds_server/ProcessWindow.cpp:179-214 | the events of whole batches are those of the request: counted, in order, the mapped key last, and each key released as it was pressed |
| Keystrokes.SpelledModifiers | pds_server/pds_server/ProcessWindow.cpp:184-195 | a modifier is pressed if and only if the request has it or it is the mapped key itself |
| Keystrokes.HeldAfter | pds_server/pds_server/ProcessWindow.cpp:201-210 | the keys down afterwards are those down before and the inserted presses, less the inserted releases |
| Keystrokes.HeldUnchanged | pds_server/pds_server/ProcessWindow.cpp:201-210 | for every partial injection, exactly when the keys that are down are the same before and after |
| Keystrokes.AllOrNothing | pds_server/pds_server/ProcessWindow.cpp:179-214 | with whole batches the held keys are unchanged if and only if none of the request's keys was held before |
| Keystrokes.StuckKeys | pds_server/pds_server/ProcessWindow.cpp:202-210 | which keys of a request stay down after partial batches |
| Keystrokes.Answer | pds_server/pds_server/Client.cpp:147-161 | keys are injected only if the request names the foreground window, and then as for that request; the response has its id and says success if and only if that was so and the injection worked |
| PoolTheorems.CountersExact | pds_server/pds_server/ClientList.cpp:7-47 | in every interleaving a list's counter is its length whenever its lock is free, and nobody pops an empty list |
| PoolTheorems.TakenInOrder | pds_server/pds_server/ClientList.cpp:26-34 | clients leave the waiting list in the order in which they arrived |
| PoolTheorems.NotifiesEach | pds_server/pds_server/ClientList.cpp:17-23 | in every interleaving a notification that is over has visited every listed node, each once and in order |
| PoolTheorems.NoUseAfterRemoval | pds_server/pds_server/pds_server.cpp:69-75 | while a worker may touch its client the node is in the list and holds the client's socket; a node is missing only from a worker that has marked its client closed |
| PoolTheorems.RemovedExactly | pds_server/pds_server/ClientList.cpp:42-47 | in every reachable state a step removes the node of a worker inside serve if and only if it is a sweep and that worker has marked its client, which came with a socket, closed |
| PoolTheorems.OneOwnerUntilClosed | pds_server/pds_server/Client.cpp:18-55 | across all moves, temporaries, pops and destructions an accepted socket has exactly one owner until it is closed, is closed at most once, and has been closed when serving is over |
| PoolTheorems.ActiveBounded | pds_server/pds_server/pds_server.cpp:69-95 | the active clients are never more than the workers plus the failed accepts; at most 16 if the pool is not larger and no accept failed |
| PoolLimits.BoundExact | pds_server/pds_server/pds_server.cpp:54-75 | with n workers and at most f failed accepts the active clients stay within a bound in every run if and only if n + f does |
| PoolLimits.PoolSizeBound | pds_server/pds_server/pds_server.cpp:19-75 | with the workers the server starts, 16 bounds the active clients in every run if and only if no accept fails |
| PoolLimits.RemovedInsideServe | pds_server/pds_server/pds_server.cpp:69-75 | a run in which the node of a client is gone while its worker is still inside serve |
| PoolLimits.LeaksUnbounded | pds_server/pds_server/Client.cpp:176-185 | after f accepts that all failed the list of active clients can hold f nodes while every worker waits |
| PoolNodes.NoSocketInClosed | pds_server/pds_server/ClientList.cpp:45 | no node marked closed still has a socket, so cleaning up closes none |
| PoolNodes.LiveInOrder | pds_server/pds_server/ClientList.cpp:45 | of any two nodes that a sweep keeps, the one that came first still does |
| AppRows.AppList.AddApp | client/applist.cpp:106-117 | the application becomes the last row; null adds none |
| AppRows.AppList.IndexOf | client/applist.cpp:122 | the first row of the application, or -1 exactly if there is none |
| AppRows.AppList.RemoveApp | client/applist.cpp:119-128 | the first row of the application goes and the others keep their order; without a row nothing changes |
| AppRows.AppList.AddConnection | client/applist.cpp:130-143 | the rows are followed by one for each application the connection has; null adds none |
| AppRows.ApplyGrows | client/connection.cpp:49-97 | every object a signal creates is announced once, in the order in which they are made, and every object, old or new, is in use or awaits deletion afterwards |
| AppRows.RowsMatch | client/applist.cpp:106-143 | in every run no object has two rows, every live application of every added connection has one, and other rows belong to objects that await deletion |
| AppRows.RowsAreLive | client/applist.cpp:106-143 | once deletions have drained the rows are exactly the live applications of the added connections |
| AppRows.SurvivorsKeepOrder | client/applist.cpp:106-128 | whatever happens, rows that survive stay in their order |
| AppRows.RemovedForGood | client/applist.cpp:119-128 | a row that was removed never comes back |
| AppRows.NewRowsLast | client/applist.cpp:106-117 | a row that a step brings is shown below every row that was there |
| Icons.StrideIsLeast | pds_server/pds_server/ProcessWindow.cpp:105-111 | the scanline expression is the least multiple of four bytes that holds the bits of a row |
| Icons.StrideOfPixels | pds_server/pds_server/ProcessWindow.cpp:85-105 | at 32 bits a pixel a scanline is four bytes a pixel |
| Icons.Flip | pds_server/pds_server/ProcessWindow.cpp:139-147 | for every width and height, odd ones too, the swaps stay inside the buffer and leave it turned upside down, bytes behind the image untouched |
| Icons.FlippedRow | pds_server/pds_server/ProcessWindow.cpp:139-147 | after turning, row y is the original row height - 1 - y, byte for byte |
| Icons.FlippedTwice | pds_server/pds_server/ProcessWindow.cpp:139-147 | turning twice gives the original buffer |
| Icons.SwapPixels | pds_server/pds_server/ProcessWindow.cpp:145-146 | the four bytes at two places are exchanged and no other byte changes |
| Icons.EncodeIcon | pds_server/pds_server/ProcessWindow.cpp:105-152 | an icon comes out exactly if the bits could be read, with the sizes given and the image turned upside down |

## Left out

- Joining as two steps, and responses written into the middle of a notification: see the assumptions; the locking does not make the wire correct there, and no result is claimed.
- Clients that leave: in `EndToEnd` a client stays connected; what a disconnection does to a client is in `FocusTime`, what it does to the server's lists in `Pool`.
- Deadlock freedom, progress and fairness: the server takes its window lock and a client's lock in both orders, and `sendN` can spin.
- The per-client lock: `Pool` interleaves the threads at the list locks only, and has a notification visit nodes without writing to them.
- Serializers.SerializerLawful: the encoding of the protocol buffers library is not modelled; the serializer shown is another one.
- SocketIO.ReadMessage: a length of 2^31 or more, which the source passes on as a negative size, ends the model's loop.
- SocketIO.SendN: what the source writes after a short send is modelled up to the point where it fails or spins; no wire correctness follows from it.
- Connections.App.ResetFromMessage: title, path and icon of an application are not modelled, nor are the payload fields of messages that carry them.
- ClientLists.Client.CloseConnection: how `closesocket` itself can fail is not modelled.
- Icons.StrideIsLeast: the 32-bit product of width and bit count is taken not to overflow.
- Icons.EncodeIcon: acquiring the icon and its bitmap, with their own failures, is an input, and the driver's buffer is taken to be large enough.
- Keystrokes.SendKeystroke: scan codes and time stamps of the injected events are not modelled; key mapping and injection results are inputs.
- AppRows.AppList.AddConnection: the refresh timer and the connection counter, which is never incremented, are not modelled.
- A `sendRequest` with no request or no socket, both of which the source dereferences.
- Widgets, dialogs, item-model rendering, the table of servers, the key mapping tables, the mock server, logging.
- The calls of the Win32, socket and Qt libraries: their results are inputs or scripted in advance.
