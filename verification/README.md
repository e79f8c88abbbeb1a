# Delivery engine of the Paho MQTT C client

A Dafny 4.11 model of the QoS 1 and 2 delivery engine of the MQTT client library in
`libs/paho.mqtt.c`, and of what lets it survive disconnects and restarts.  It follows MQTT 3.1.1
(OASIS), sections 2.2.3, 2.3.1, 3.3, 4.3.2, 4.3.3, 4.4 and 4.6.

`dafny verify dfyconfig.toml` checks the whole project.

## Structure

- `Bytes`, `RemainingLength`, `Packets`, `Records`: bytes on the wire and in the store, and reading them back.
  `WireForm`: the bytes of a packet in the numbers of the standard.
- `MessageIds`, `SendOrder`: which id is given to a message, and the send order read off the ids.
- `LinkedList`, `PersistedList`, `RecordSearch`: the doubly linked list with its cached cursor, pointer by pointer,
  the two operations restore does on it, and the search for a message id.
- `Sessions`: one client's lists, queue and store as a value, with a function for each protocol handler.
  `Client` (module `ClientRecord`): the client record updated in place, each method proved equal to its
  function, with the ownership of publications as class invariant.
- `Handlers`: what each of these steps does to lists, queue, store and link, for any session.
- `StoreAgreement`, `Restart`, `KeyOrder`: the store against the lists, and the restart.
- `Delivery`: two clients joined by a FIFO link as a transition system; the theorems about its runs are in
  `ExactlyOnce`, `AtLeastOnce`, `OnTheWire`, `SendOrderLost`, `HandoverOrder`, `HandoverRuns`,
  `Overtaking`, `Application` and `Completion`.
- `SocketWrite`, `CommandQueue`, `ConnectAttempts`, `Backoff`: partial writes, the asynchronous command
  list, connection attempts and the reconnect interval.

Sends, system calls, clocks, the order in which a store lists its keys, and the success of a connection
attempt are parameters.  Each handler is one atomic step.  The limit on messages in flight is that of
`MQTTAsync.c:1198`; the synchronous client's limits of 1 or 10 (`MQTTClient.c:1064`) stay below it.

In `HandoverRuns` an end that fails to send or refuses a packet has closed its session until the next connect
(`MQTTClient.c:589-592`), and messages are published only while the client is connected (`MQTTClient.c:1591-1592`).

## Where the code falls short of its documentation

- QoS 1 delivery (section 4.3.2 of MQTT 3.1.1) fails if resending on a live connection is on:
  `AtLeastOnce.LiveRetryLosesMessage` is a run, `AtLeastOnce.AtLeastOnceIffNoLiveRetry` the exact condition.
- Between two such clients a QoS 2 message whose PUBCOMP was lost is never finished (section 4.3.3): the receiver answers a
  PUBREL it holds no message for only if it is marked DUP (`MQTTProtocolClient.c:424`), and the sender never marks it
  (`MQTTProtocolClient.c:614`).
  `Completion.ResumedCompletesIff` is the exact condition.
- The send order is not always recovered by a restart (section 4.6): `SendOrderLost.RestartsCanLoseOrder` is a run,
  `SendOrder.RestoredOrderIsSendOrder` the exact condition on the ids in flight, `OnTheWire.SendOrderKept` the same over runs.
- Messages can be handed over out of order even then: `SendOrderLost.NewMessageOvertakes` is a run. It happens exactly
  when a message is published while an earlier one of its QoS, not handed over, was left behind by the resending of a
  reconnect: `HandoverRuns.HandedOverInOrder`, `HandoverRuns.PassCatchesUpIff` and `Overtaking.PublishInOrderIff`.
- A damaged store can give different outbound lists for different listings of its keys: `KeyOrder.TruncatedPubrel` and
  `KeyOrder.CopiedRecord` are stores, `KeyOrder.OutboundIgnoresKeyOrder` gives the exact condition.
- An automatic reconnect starts again with the versions, as its comment says, but not with the addresses:
  `ConnectAttempts.FirstAddressForgotten` is a case, `ConnectAttempts.ReconnectStartsOverIff` the exact condition.
- With the id counter at 0 and all ids in use the search for an id does not end:
  `MessageIds.SearchStops`; the limit on messages in flight keeps callers away from it.

## Model

| member | source | states |
|---|---|---|
| ExactlyOnce.ExactlyOnce | libs/paho.mqtt.c/src/MQTTProtocolClient.c:264-515 | over every run of two linked clients (cuts, failed and partial sends, live and reconnect resends, restarts of either side, reuse of ids): what the receiving application gets is what was published; no QoS 2 message reaches it twice; each QoS 2 message the sender has retired reached it exactly once with its own topic and payload |
| ExactlyOnce.NothingForgotten | libs/paho.mqtt.c/src/MQTTProtocolClient.c:128-170 | at any moment of any run a publish call is either retired or still in flight under one id with its own data, and never both |
| ExactlyOnce.NextKeepsInv | libs/paho.mqtt.c/src/MQTTProtocolClient.c:264-515 | every step of the two clients keeps the joint invariant: both stores agree with the lists, every id's conversation is in one of its legal stages given what is on the link, and the history of hand-overs and retirements is consistent |
| ExactlyOnce.RunKeepsInv | libs/paho.mqtt.c/src/MQTTProtocolClient.c:264-515 | the joint invariant holds after any sequence of steps |
| ExactlyOnce.StoresAgree | libs/paho.mqtt.c/src/MQTTPersistence.c:174-266 | over every run, between any two steps, both stores agree with memory; a sender restarted there has the same records in the same states, and a receiver the same queue and every message it held, each with the data of its own call |
| ExactlyOnce.NeverStuck | libs/paho.mqtt.c/src/MQTTProtocolClient.c:264-466 | over every run the receiver can handle whatever comes next on the link and the sender's id counter is in range: no step is blocked by the model's guards |
| ExactlyOnce.HeldAfterRestart | libs/paho.mqtt.c/src/MQTTPersistence.c:207-219 | what the receiver holds for PUBREL comes back from its store unchanged but for the time, and nothing else comes back than the data of the call that id belongs to |
| ExactlyOnce.ReconnectedFinds | libs/paho.mqtt.c/src/MQTTClient.c:1000-1010 | marking the records as never sent on reconnect changes nothing that the store must agree with |
| ExactlyOnce.ReadQos2Talks | libs/paho.mqtt.c/src/MQTTProtocolClient.c:289-314 | a QoS 2 PUBLISH that arrives belongs to the call whose record is in flight, and holding, replacing or refusing it keeps every conversation legal |
| AtLeastOnce.FinishedMeansHandedOver | libs/paho.mqtt.c/src/MQTTProtocolClient.c:322-353 | if messages are resent only on reconnect, every message the sender has retired, at QoS 1 or 2, was handed over |
| AtLeastOnce.LiveRetryLosesMessage | libs/paho.mqtt.c/src/MQTTProtocolClient.c:569-612 | with a positive retry interval there is a run that ends with a QoS 1 message retired and, whatever happens next, never handed over: a resend leaves a second PUBACK on the link, which after a restart (ids start again) answers a later message with the same id, and then the link is cut |
| AtLeastOnce.LostForGood | libs/paho.mqtt.c/src/MQTTProtocolClient.c:264-630 | a call that has not been handed over and is neither in flight, nor stored by the receiver, nor on the link is never handed over in any continuation |
| AtLeastOnce.AtLeastOnceIffNoLiveRetry | libs/paho.mqtt.c/src/MQTTProtocolClient.c:569-630 | all retired messages are handed over in every run exactly when the retry interval is not positive, the guard that turns live resending off; otherwise, and only then, some run loses a message for good |
| OnTheWire.ResendsAreAPrefix | libs/paho.mqtt.c/src/MQTTProtocolClient.c:569-630 | a reconnect resends a prefix of the outbound list in its order, all of it if every send completes, and leaves the records as they are (section 4.4 of MQTT 3.1.1) |
| OnTheWire.ResendsAllIff | libs/paho.mqtt.c/src/MQTTProtocolClient.c:575-612 | the pass of a reconnect transmits for every record if and only if all sends but the last complete and the last does not fail |
| OnTheWire.NextKeepsOrder | libs/paho.mqtt.c/src/MQTTProtocolClient.c:569-630 | every step keeps the outbound list in the order of the publish calls, except that a restart of the sender does so if and only if the ids in flight form a recoverable window |
| OnTheWire.SendOrderKept | libs/paho.mqtt.c/src/MQTTClient.c:1000-1012 | the list a reconnect resends from is in original send order throughout a run if and only if each restart of the sender in it finds a recoverable window (section 4.6 of MQTT 3.1.1) |
| OnTheWire.ResendsInSendOrder | libs/paho.mqtt.c/src/MQTTProtocolClient.c:569-630 | in every such run whatever a reconnect or the retry timer transmits goes out in the order of the publish calls |
| SendOrderLost.RestartsCanLoseOrder | libs/paho.mqtt.c/src/MQTTPersistence.c:435-472 | a run of two restarts that loses the order: the ids start again below one in flight, the window 2, 1 is not recoverable, and the next reconnect sends the newer message before the older one |
| HandoverRuns.HandedOverInOrder | libs/paho.mqtt.c/src/MQTTProtocolClient.c:264-515 | over every run with live resending off in which closed sessions stay closed until the next connect, restarts of the sender find a recoverable window, and no message is published while an earlier one of its QoS is still to be resent: when a message is handed over, all earlier ones of its QoS already were, at QoS 1 and at QoS 2; and QoS 2 messages are handed over in exactly the order of their publish calls (section 4.6 of MQTT 3.1.1) |
| HandoverRuns.NextKeepsOrderInv | libs/paho.mqtt.c/src/MQTTProtocolClient.c:264-630 | every such step keeps it that, for any two records of one QoS, whatever is under way for the later one has the earlier one's flow ahead of it, as far as an open end of the connection still reads |
| HandoverRuns.WholePassesKeepOrder | libs/paho.mqtt.c/src/MQTTProtocolClient.c:569-630 | if every reconnect resends everything, hand-overs at each QoS are in order, without a condition on publish calls other than that the client is connected |
| HandoverRuns.PassCatchesUpIff | libs/paho.mqtt.c/src/MQTTProtocolClient.c:575-612 | after a reconnect nothing of a QoS is still to be resent if and only if every record of it that the pass left behind had been handed over before |
| Overtaking.PublishOvertakes | libs/paho.mqtt.c/src/MQTTClient.c:1598-1650 | from any state in which a record not yet handed over is still to be resent, publishing a message of the same QoS has a continuation of successful reads alone that hands over the new message and not the old one |
| Overtaking.PublishInOrderIff | libs/paho.mqtt.c/src/MQTTClient.c:1598-1650 | after any such run, publishing one more message leaves the order of hand-overs intact in all continuations if and only if no earlier message of its QoS is still to be resent |
| SendOrderLost.NewMessageOvertakes | libs/paho.mqtt.c/src/MQTTProtocolClient.c:575-612 | a run without restarts in which a later call is handed over before an earlier one, still in flight: the pass of a reconnect stops behind a partial write, and a new message does not wait for the rest |
| OnTheWire.NeverPublishedAgain | libs/paho.mqtt.c/src/MQTTProtocolClient.c:362-402 | over every run, once a PUBREL has gone out for a message no PUBLISH is sent for it again |
| OnTheWire.RepeatsAreMarked | libs/paho.mqtt.c/src/MQTTProtocolClient.c:586-590 | over every run every PUBLISH sent carries the topic, payload, QoS and retain flag of its own call, and all but the first of a call are marked DUP (section 3.3.1.1 of MQTT 3.1.1) |
| Completion.AnswerCompletes | libs/paho.mqtt.c/src/MQTTProtocolClient.c:322-515 | in any state of any run, the PUBACK or PUBCOMP that a message in flight waits for finishes its call: the record and both keys are gone, every other id keeps its record and keys, the call is among the finished ones, and nothing else changed |
| Completion.OthersStay | libs/paho.mqtt.c/src/MQTTProtocolClient.c:322-515 | every other answer leaves the message in flight |
| Completion.PublishCompletes | libs/paho.mqtt.c/src/MQTTProtocolClient.c:128-170 | from any state of the invariant with an empty link, and from any in which no repetition is under way, a message published at QoS 1 or 2 and sent has a continuation of successful reads at whose end its call is finished |
| Completion.CanComplete | libs/paho.mqtt.c/src/MQTTProtocolClient.c:264-515 | a message whose next packet is on the link, in either direction, can be finished by reads alone |
| Completion.StalledForGood | libs/paho.mqtt.c/src/MQTTProtocolClient.c:422-431 | a QoS 2 message that was handed over and whose PUBCOMP is lost is never finished, whatever happens next: a PUBREL of a message no longer held is answered only if it is marked DUP |
| Completion.ResumedCompletesIff | libs/paho.mqtt.c/src/MQTTProtocolClient.c:569-630 | after a reconnect that resends everything, a message in flight can still be finished if and only if it does not wait for the PUBCOMP of a message that was handed over; if it can, reads alone are enough (section 4.4 of MQTT 3.1.1) |
| Completion.CallIsTakenIff | libs/paho.mqtt.c/src/MQTTAsync.c:1194-1208 | a publish call is taken exactly while fewer than 65534 messages are in flight, and then adds one record |
| Application.TakenInOrder | libs/paho.mqtt.c/src/MQTTClient.c:505-521 | over every run, restarts included: the messages the application has taken, followed by those waiting in the queue, are the messages handed over, in that order, each with the data of its call and at QoS 2 without DUP |
| Application.NextKeepsTaken | libs/paho.mqtt.c/src/MQTTPersistence.c:608-653 | every step keeps this, a restart of the receiver by its sorted queue |
| StoreAgreement.NewPublishAgrees | libs/paho.mqtt.c/src/MQTTPacket.c:243-249 | after a publish, key s-id exists exactly for ids in flight and decodes to the record; sc-id exactly for QoS 2 records awaiting PUBCOMP; the queue's keys exactly for queued messages |
| StoreAgreement.PubackAgrees | libs/paho.mqtt.c/src/MQTTProtocolClient.c:322-353 | a PUBACK, expected or not, leaves store and lists in agreement |
| StoreAgreement.PubrecAgrees | libs/paho.mqtt.c/src/MQTTPacket.c:194-200 | a PUBREC, expected or not, leaves store and lists in agreement: the PUBREL is stored before it is written |
| StoreAgreement.PubcompAgrees | libs/paho.mqtt.c/src/MQTTPersistence.c:402-427 | a PUBCOMP, expected or not, leaves store and lists in agreement |
| StoreAgreement.ReceivePublishAgrees | libs/paho.mqtt.c/src/MQTTPacket.c:147-158 | a PUBLISH that arrives leaves store and lists in agreement, also when it is refused after it was stored |
| StoreAgreement.PubrelAgrees | libs/paho.mqtt.c/src/MQTTProtocolClient.c:411-466 | a PUBREL leaves store, inbound list and queue in agreement, whether it releases a message or not |
| StoreAgreement.RetryFromAgrees | libs/paho.mqtt.c/src/MQTTProtocolClient.c:569-630 | a resending pass cut short anywhere leaves store and lists in agreement |
| StoreAgreement.ProcessPublicationAgrees | libs/paho.mqtt.c/src/MQTTClient.c:806-849 | passing a message to the application's queue keeps the queue in arrival order and stored entry by entry |
| StoreAgreement.TakeFromQueueAgrees | libs/paho.mqtt.c/src/MQTTPersistence.c:476-487 | taking the first message from the queue removes exactly its key |
| Handlers.PubackCompletes | libs/paho.mqtt.c/src/MQTTProtocolClient.c:322-353 | for any session: a PUBACK removes exactly the QoS 1 record of its id with its key, and does nothing to a QoS 2 record |
| Handlers.PubcompCompletes | libs/paho.mqtt.c/src/MQTTProtocolClient.c:475-515 | for any session: a PUBCOMP removes exactly the QoS 2 record of its id that waits for it, with both keys, and otherwise nothing |
| Handlers.PubrecAdvances | libs/paho.mqtt.c/src/MQTTProtocolClient.c:362-402 | for any session: a PUBREC moves the record that waits for it to its second stage, stores and sends a PUBREL, and otherwise does nothing |
| Handlers.PublishRecords | libs/paho.mqtt.c/src/MQTTProtocolClient.c:128-170 | for any session: the record goes behind all others in the first stage of its flow, under an id not in use, and the packet that is sent is stored under a new key |
| Handlers.DeliveredOnArrival | libs/paho.mqtt.c/src/MQTTProtocolClient.c:264-287 | for any session and packet: at QoS 0, and at QoS 1 with no write pending, one entry joins the end of the queue under a new number with the packet's topic, payload, QoS, retain and DUP flags and id, reads back from the store, and nothing is answered, or the PUBACK of the id; the lists stay |
| Handlers.RefusedOnArrival | libs/paho.mqtt.c/src/MQTTProtocolClient.c:279-280 | with a write pending, a message at QoS 1 or 2 is neither answered nor recorded; the copy stored while a QoS 2 packet was read stays |
| Handlers.HeldOnArrival | libs/paho.mqtt.c/src/MQTTProtocolClient.c:289-314 | for any session: a QoS 2 message is held in the place of the one with its id, or last, stored as it came and answered with PUBREC; the queue stays |
| Handlers.ReleasedByPubrel | libs/paho.mqtt.c/src/MQTTProtocolClient.c:433-461 | for any session: a PUBREL for a held message puts it at the end of the queue without DUP, with its own data, retain flag and id, removes it and its key, and is answered with PUBCOMP |
| Handlers.OtherPubrels | libs/paho.mqtt.c/src/MQTTProtocolClient.c:422-431 | any other PUBREL changes nothing: passed over, refused while a write is pending, or answered if it is marked DUP |
| Handlers.NextKeyIsFree | libs/paho.mqtt.c/src/MQTTClient.c:806-849 | the key of the next queue entry is not in use |
| Handlers.TakesOldest | libs/paho.mqtt.c/src/MQTTClient.c:505-521 | the application takes the oldest message and only its key leaves the store |
| Handlers.ResentAs | libs/paho.mqtt.c/src/MQTTProtocolClient.c:583-614 | a record in its second stage is resent as a PUBREL, any other as its PUBLISH marked DUP |
| Handlers.DueWhen | libs/paho.mqtt.c/src/MQTTProtocolClient.c:575-582 | a live retry waits for more than the retry interval and more than ten seconds |
| Handlers.ResendTouches | libs/paho.mqtt.c/src/MQTTProtocolClient.c:583-625 | only the time of the record resent changes, and only if the send did not fail, a partly written PUBREL being a failure |
| Handlers.PassFailsIff | libs/paho.mqtt.c/src/MQTTProtocolClient.c:569-630 | the pass of a reconnect closes the session exactly at a send that fails, or a PUBREL written in part, with all sends before it complete |
| Handlers.CleanForgets | libs/paho.mqtt.c/src/MQTTClient.c:791-803 | a session clean empties lists, queue, store and id counter |
| Restart.RestartKeepsSession | libs/paho.mqtt.c/src/MQTTPersistence.c:174-266 | restarting from a store in agreement gives the same outbound records in the same states, the inbound records that are stored, the same queue, and a session that agrees again, for any listing of the keys |
| Restart.RestartKeepsSendOrder | libs/paho.mqtt.c/src/MQTTPersistence.c:435-472 | the outbound list comes back in its original order exactly when the ids in flight form a recoverable window |
| KeyOrder.OutboundIgnoresKeyOrder | libs/paho.mqtt.c/src/MQTTPersistence.c:187-262 | for every store: all listings of its keys give the same outbound list exactly when every PUBREL that a record looks for names a readable PUBLISH and records with equal ids are equal |
| KeyOrder.AgreementIsUnambiguous | libs/paho.mqtt.c/src/MQTTPersistence.c:187-262 | a store that agrees with a session satisfies that condition |
| KeyOrder.VanishingPubrel | libs/paho.mqtt.c/src/MQTTPersistence.c:233-247 | a PUBREL whose PUBLISH cannot be read is removed or seen by the record, depending on the order of the keys: two listings give different lists |
| KeyOrder.DifferentRecords | libs/paho.mqtt.c/src/MQTTPersistence.c:312-326 | two different stored messages with one id end up in the order of their keys: two listings give different lists |
| KeyOrder.TruncatedPubrel | libs/paho.mqtt.c/src/MQTTPersistence.c:233-247 | a store in which the file of a PUBREL lost its last byte: two listings of its keys give different outbound lists |
| KeyOrder.CopiedRecord | libs/paho.mqtt.c/src/MQTTPersistence.c:220-232 | a store in which two keys hold different messages with one id: two listings of its keys give different outbound lists |
| KeyOrder.QueueIgnoresKeyOrder | libs/paho.mqtt.c/src/MQTTPersistence.c:608-653 | for every store and any two listings in both passes the queue is the same, in arrival order, holds exactly the readable entries, and the counter ends at or above all of them |
| SendOrder.RestoredOrderIsSendOrder | libs/paho.mqtt.c/src/MQTTPersistence.c:435-472 | sorted insertion followed by the cut gives back the original order if and only if the ids form a cyclic window whose free arc is the largest gap (with the tie rule of the strict comparison) |
| SendOrder.RestoredOrderIsRotation | libs/paho.mqtt.c/src/MQTTPersistence.c:435-472 | in every case the result is a rotation of the sorted ids with a largest cyclic gap between its last and first |
| SendOrder.RestoredOrderIgnoresArrival | libs/paho.mqtt.c/src/MQTTPersistence.c:312-326 | the result depends only on which ids there are |
| SendOrder.WrapAtIsLargest | libs/paho.mqtt.c/src/MQTTPersistence.c:446-459 | the scan finds the first largest gap and nothing else satisfies that description |
| SendOrder.SortIdsSorts | libs/paho.mqtt.c/src/MQTTPersistence.c:312-326 | inserting one by one sorts, keeping exactly the given ids |
| PersistedList.InsertInOrder | libs/paho.mqtt.c/src/MQTTPersistence.c:312-326 | on the pointer list: the element goes in front of the first larger key, all else keeps its place, the links and the cursor stay sound |
| PersistedList.WrapMsgID | libs/paho.mqtt.c/src/MQTTPersistence.c:435-472 | on the pointer list: relinking turns the list so that it starts behind its largest gap, with all links sound again |
| MessageIds.AssignedIdIsFirstFree | libs/paho.mqtt.c/src/MQTTProtocolClient.c:77-97 | the id is in 1..65535, not in use, and every id passed over in cyclic order from the counter is in use; 0 means that all ids but the counter itself are in use |
| MessageIds.AssignedIdExists | libs/paho.mqtt.c/src/MQTTClient.c:1598-1622 | with at most 65533 messages in flight an id is always found |
| MessageIds.SearchStops | libs/paho.mqtt.c/src/MQTTProtocolClient.c:77-97 | the search ends if and only if the counter is not 0 or some id is free: from the initial counter 0 with every id in use no probe is free and none equals the counter |
| ClientRecord.Client.AssignMsgId | libs/paho.mqtt.c/src/MQTTProtocolClient.c:77-97 | the loop computes that id and terminates whenever the counter is not 0 or an id is free; the counter moves only to an id found |
| ClientRecord.Client.PublishMessage | libs/paho.mqtt.c/src/MQTTClient.c:1598-1650 | below the flow-control limit a publish call always finds a fresh id in 1..65535 and does to the session exactly what its specification says |
| Sessions.IdSetSize | libs/paho.mqtt.c/src/MQTTClient.c:1598-1622 | the ids in use are at most as many as the records, so that the caller's limit on records bounds them |
| ClientRecord.Client.StartPublish | libs/paho.mqtt.c/src/MQTTProtocolClient.c:100-170 | in place: appends the record, stores the packet before writing it, or at QoS 0 keeps the data only while the write is incomplete; ownership of publications is kept |
| ClientRecord.Client.HandlePubacks | libs/paho.mqtt.c/src/MQTTProtocolClient.c:322-353 | in place: equals the specification and drops exactly the publication of the record removed |
| ClientRecord.Client.HandlePubrecs | libs/paho.mqtt.c/src/MQTTProtocolClient.c:362-402 | in place: equals the specification, with the publications untouched |
| ClientRecord.Client.HandlePubcomps | libs/paho.mqtt.c/src/MQTTProtocolClient.c:475-515 | in place: equals the specification and drops exactly the publication of the record removed |
| ClientRecord.Client.HoldMessage | libs/paho.mqtt.c/src/MQTTProtocolClient.c:289-310 | in place: a repeated inbound PUBLISH replaces the record where it stands and drops the old data once |
| ClientRecord.Client.HandlePublishes | libs/paho.mqtt.c/src/MQTTProtocolClient.c:264-319 | in place: equals the specification at every QoS, including the refusal while a write is pending; ownership is kept |
| ClientRecord.Client.HandlePubrels | libs/paho.mqtt.c/src/MQTTProtocolClient.c:411-466 | in place: equals the specification; the data moves from the inbound record to the queue without being freed or left behind |
| ClientRecord.Client.DeliverMessage | libs/paho.mqtt.c/src/MQTTClient.c:605-638 | in place: the application is given the first entry of the queue, which leaves queue and store only if the callback accepts it |
| ClientRecord.Client.Retries | libs/paho.mqtt.c/src/MQTTProtocolClient.c:569-630 | in place: nothing unless the client is connected, without error and with no write pending; then the loop resends what the specification says, in list order, and stops where it says |
| ClientRecord.Client.Reconnect | libs/paho.mqtt.c/src/MQTTClient.c:1000-1010 | in place: marks all records as never sent and resends them in order |
| ClientRecord.Client.EmptyMessageList | libs/paho.mqtt.c/src/MQTTProtocolClient.c:721-733 | releases the publication of every record of one list and no other |
| ClientRecord.Client.CleanSession | libs/paho.mqtt.c/src/MQTTClient.c:791-803 | empties lists, queue and store, resets the id counter and leaves only data of pending writes |
| ClientRecord.Client.CheckPendingWrites | libs/paho.mqtt.c/src/MQTTClient.c:2137-2157 | socket by socket: exactly the kept copies whose socket has nothing pending are released, each once, and the others stay in order |
| ClientRecord.Client.Discard | libs/paho.mqtt.c/src/MQTTProtocolClient.c:246-256 | giving up the one reference removes that publication and keeps the rest unshared |
| ClientRecord.Client.WrapMsgID | libs/paho.mqtt.c/src/MQTTPersistence.c:435-472 | in place: the record's outbound list is cut behind its largest gap; ownership is kept |
| ClientRecord.Client.Restore | libs/paho.mqtt.c/src/MQTTPersistence.c:174-266 | in place: visiting the keys one after the other rebuilds what the specification rebuilds, one publication for each record |
| ClientRecord.Client.RestoreMessageQueue | libs/paho.mqtt.c/src/MQTTPersistence.c:587-653 | in place: inserting by seqno rebuilds the specified queue and counter |
| ClientRecord.Client.Start | libs/paho.mqtt.c/src/MQTTPersistence.c:108-123 | the whole restart equals its specification |
| ClientRecord.Referenced | libs/paho.mqtt.c/src/MQTTProtocolClient.c:214-256 | no record or pending write refers to a publication that is not stored |
| ClientRecord.BalancedReplace | libs/paho.mqtt.c/src/MQTTProtocolClient.c:289-310 | replacing a record and discarding the old data keeps references and stored publications in one-to-one correspondence |
| RemainingLength.EncodeLengthMinimal | libs/paho.mqtt.c/src/MQTTPacket.c:274-290 | for every value the encoding is the shortest complete form and the only one of that size |
| RemainingLength.EncodeLengthSize | libs/paho.mqtt.c/src/MQTTPacket.c:274-290 | k bytes suffice for exactly the values below 128^k |
| RemainingLength.DecodeOfEncode | libs/paho.mqtt.c/src/MQTTPacket.c:299-329 | decoding inverts encoding for values up to 268435455 and rejects every longer field, whatever bytes follow |
| RemainingLength.DecodeInRange | libs/paho.mqtt.c/src/MQTTPacket.c:299-329 | whatever the stream, a decoded value is in range and took 1 to 4 bytes |
| RemainingLength.Encode | libs/paho.mqtt.c/src/MQTTPacket.c:274-290 | the loop over the buffer writes that encoding at the given place, changes nothing else and returns its size |
| RemainingLength.DecodeStream | libs/paho.mqtt.c/src/MQTTPacket.c:299-329 | the loop with value and multiplier equals the specification of decoding |
| Packets.RestorePacketOfWire | libs/paho.mqtt.c/src/MQTTPersistence.c:274-303 | restoring the concatenated buffers of a sent packet gives back DUP, QoS, retain, id, NUL-free topic and payload if and only if the topic length fits two bytes and a QoS 0 packet carries no id |
| Packets.ReadPacketOfWire | libs/paho.mqtt.c/src/MQTTPacket.c:99-168 | the packet factory reads back a transmittable packet and uses exactly its bytes, whatever follows |
| Packets.ReadPacketOfPart | libs/paho.mqtt.c/src/MQTTPacket.c:99-168 | of a proper beginning of a packet the factory reads nothing and reports it incomplete |
| Packets.ReadAllOfStream | libs/paho.mqtt.c/src/MQTTPacket.c:99-168 | packets sent one after the other and then part of another read back as exactly those packets |
| WireForm.FirstByte | libs/paho.mqtt.c/src/MQTTPacket.c:695-742 | for every packet the first byte is 48 + 8 DUP + 2 QoS + RETAIN for PUBLISH, and 64, 80, 98, 112, plus 8 for DUP, for PUBACK, PUBREC, PUBREL, PUBCOMP (section 2.2 of MQTT 3.1.1) |
| WireForm.LengthDigits | libs/paho.mqtt.c/src/MQTTPacket.c:274-290 | each byte of the length field holds seven bits of the length, lowest first, and its top bit says whether another follows |
| WireForm.PublishBytes | libs/paho.mqtt.c/src/MQTTPacket.c:695-742 | behind the length field come the topic length, high byte first, the topic, the id above QoS 0 only, and the payload, and the field holds their total length |
| WireForm.AckBytes | libs/paho.mqtt.c/src/MQTTPacket.c:553-570 | an answer is four bytes: type, 2, and the id, high byte first |
| Packets.ParseStored | libs/paho.mqtt.c/src/MQTTPersistence.c:274-303 | decoding the stored bytes in place gives the specified packet or rejects the record |
| Packets.ParseLength | libs/paho.mqtt.c/src/MQTTPersistence.c:284-291 | the loop advancing through the length field finds its last byte and its value, or that it does not end |
| Records.TakeCommandBack | libs/paho.mqtt.c/src/MQTTAsync.c:713-805 | restoring undoes persisting for SUBSCRIBE and UNSUBSCRIBE with any number of topics and PUBLISH with any payload, consuming exactly the bytes written |
| Records.PersistSubscribe | libs/paho.mqtt.c/src/MQTTAsync.c:620-643 | the loop produces 3 + 2n buffers whose concatenation is the record |
| Records.PersistUnsubscribe | libs/paho.mqtt.c/src/MQTTAsync.c:645-666 | the loop produces 3 + n buffers whose concatenation is the record |
| Records.PersistPublish | libs/paho.mqtt.c/src/MQTTAsync.c:668-696 | seven buffers whose concatenation is the record |
| Records.RestoreSubscriptions | libs/paho.mqtt.c/src/MQTTAsync.c:734-755 | the loop over the pointer reads what the specification reads, or fails where it fails |
| Records.RestoreTopics | libs/paho.mqtt.c/src/MQTTAsync.c:757-774 | the loop over the pointer reads what the specification reads, or fails where it fails |
| Records.TakeMessageBack | libs/paho.mqtt.c/src/MQTTPersistence.c:490-584 | a queue entry comes back from its buffers with the same payload, QoS, flags, id and topic, and no byte left |
| Records.MessageLayout | libs/paho.mqtt.c/src/MQTTPersistence.c:490-535 | a queue entry is stored as payload length, payload, QoS, retained, DUP, id, topic with its NUL and topic length, each number in four bytes |
| Records.CommandLayout | libs/paho.mqtt.c/src/MQTTAsync.c:620-696 | a command record starts with the number of its packet type, 8, 10 or 3, and the token, and then for topics their count |
| Records.PublishCommandLayout | libs/paho.mqtt.c/src/MQTTAsync.c:668-696 | a publish command goes on with the topic and its NUL, payload length, payload, QoS and retained |
| SocketWrite.OfferIsUnsent | libs/paho.mqtt.c/src/Socket.c:813-834 | for any number of bytes already out, a continuation offers the rest of the buffer that was cut, or all that is unsent if none was: never nothing and never a byte already sent |
| SocketWrite.Socket.Putdatas | libs/paho.mqtt.c/src/Socket.c:496-554 | keeps the wire equal to whole packets plus the written part of one pending packet; refuses to start a packet while another is pending; complete exactly when all bytes went |
| SocketWrite.Socket.Collect | libs/paho.mqtt.c/src/Socket.c:813-834 | the loop over the buffers with its cumulative length computes the offer |
| SocketWrite.Socket.ContinueWrite | libs/paho.mqtt.c/src/Socket.c:793-870 | what is offered is a non-empty prefix of the unsent bytes; returns 1 exactly when the last byte went, and then the wire holds the whole packet |
| SocketWrite.WireReadsBack | libs/paho.mqtt.c/src/Socket.c:496-554 | however the system split the writes, the other end reads exactly the packets that were finished, in order, and the beginning of the pending one |
| SocketWrite.FinishedStream | libs/paho.mqtt.c/src/MQTTPacket.c:230-262 | the buffers handed to the socket, put end to end, are the packets' wire forms |
| CommandQueue.SelectIsFirstReadyHead | libs/paho.mqtt.c/src/MQTTAsync.c:1184-1213 | the command taken is the first of its client and ready, every client met earlier has a head that is not ready, and nothing is taken exactly when no client's head is ready |
| CommandQueue.TakenMayGo | libs/paho.mqtt.c/src/MQTTAsync.c:1194-1208 | a command taken is CONNECT or DISCONNECT, or its client is connected, idle, with no pending writes and fewer than 65534 messages in flight |
| CommandQueue.NothingToDoIff | libs/paho.mqtt.c/src/MQTTAsync.c:1184-1213 | nothing is taken exactly when the first command of each client is a request and its client is not connected, busy, still writing or at the limit |
| CommandQueue.ServedWhenPossible | libs/paho.mqtt.c/src/MQTTAsync.c:1184-1213 | over every run nothing was taken that its client could not serve, and a command is taken whenever the first one of some client can be served |
| CommandQueue.UrgentGoesFirst | libs/paho.mqtt.c/src/MQTTAsync.c:874-915 | CONNECT and internal DISCONNECT go to the head, are not queued twice in a row, and are served next whatever the state of the clients |
| CommandQueue.CleanedParts | libs/paho.mqtt.c/src/MQTTAsync.c:1647-1685 | cleaning removes each command of the client wherever it stands and no other |
| CommandQueue.RequestsTakenInApiOrder | libs/paho.mqtt.c/src/MQTTAsync.c:874-915 | over every run, whatever other clients do, the publish, subscribe and unsubscribe requests taken and still waiting are together those made, in API order |
| CommandQueue.CleanDropsTheRest | libs/paho.mqtt.c/src/MQTTAsync.c:1617-1685 | a session clean drops exactly the waiting requests, and later ones are again taken in order |
| CommandQueue.RunKeepsFifo | libs/paho.mqtt.c/src/MQTTAsync.c:874-915 | the queue invariant of all clients holds after any sequence of steps |
| CommandQueue.Scheduler.AddCommand | libs/paho.mqtt.c/src/MQTTAsync.c:874-915 | in place: CONNECT and internal DISCONNECT go to the head unless the same is there, all else to the end |
| CommandQueue.Scheduler.TakeCommand | libs/paho.mqtt.c/src/MQTTAsync.c:1184-1213 | in place: the scan with its list of ignored clients takes the specified command and only that |
| CommandQueue.Scheduler.RemoveCommands | libs/paho.mqtt.c/src/MQTTAsync.c:1647-1685 | in place: removes exactly the client's commands and keeps the order of the rest |
| ConnectAttempts.AsyncRefinesNestedLoops | libs/paho.mqtt.c/src/MQTTAsync.c:1224-1255 | a fresh asynchronous connect tries the same (address, version) pairs in the same order as the nested loops, stops at the first success, gives up only after all, within two attempts for each address |
| ConnectAttempts.AttemptNumber | libs/paho.mqtt.c/src/MQTTClient.c:1176-1182 | the i-th attempt of the nested loops: at each address version 4 and then 3, or the version asked for |
| ConnectAttempts.AsyncFollowsPlan | libs/paho.mqtt.c/src/MQTTAsync.c:1394-1411 | from any queued state the requeued command makes the attempts that remain in the nested loops |
| ConnectAttempts.KeptIsLastAttempt | libs/paho.mqtt.c/src/MQTTAsync.c:1367-1422 | the command kept when the attempts end is the one tried last, and a reconnect can start from it |
| ConnectAttempts.ReconnectGoesOnFromLastAddress | libs/paho.mqtt.c/src/MQTTAsync.c:1537-1553 | after any first connect, a reconnect makes the attempts of the nested loops from the address of the first connect's last attempt on, and tries none before it |
| ConnectAttempts.ReconnectStartsOverIff | libs/paho.mqtt.c/src/MQTTAsync.c:1537-1553 | a reconnect tries what a fresh connect would, whatever succeeds, if and only if there is one address or the first connect succeeded at the first address |
| ConnectAttempts.NeverGoesBack | libs/paho.mqtt.c/src/MQTTAsync.c:1537-1553 | after any first connect and any number of reconnects with any outcomes, the next reconnect tries no address before the one the first connect tried last |
| ConnectAttempts.FirstAddressForgotten | libs/paho.mqtt.c/src/MQTTAsync.c:1537-1553 | with two addresses of which only the second answered, no later reconnect, after any number of others, tries the first, which a fresh connect tries at once |
| ConnectAttempts.UntilSuccessStops | libs/paho.mqtt.c/src/MQTTClient.c:1246-1268 | attempts are a beginning of the whole list, none but the last succeeded, and one cut short ends in success |
| ConnectAttempts.ConnectURI | libs/paho.mqtt.c/src/MQTTClient.c:1176-1182 | the two versions, or the one asked for, up to the first success |
| ConnectAttempts.ConnectSync | libs/paho.mqtt.c/src/MQTTClient.c:1246-1268 | the loop over the addresses makes the attempts of the nested loops and reports the outcome of the last |
| ConnectAttempts.ConnectAsync | libs/paho.mqtt.c/src/MQTTAsync.c:1438-1463 | the loop that puts the command back makes the attempts that remain, terminates, and ends with the command that is kept |
| LinkedList.CursorIsOnlyACache | libs/paho.mqtt.c/src/LinkedList.c:152-186 | the search with the cached cursor succeeds exactly when a linear search does, and finds the same element if the match is unique |
| RecordSearch.SearchById | libs/paho.mqtt.c/src/LinkedList.c:152-186 | in a list without repeated message ids the search by id, cursor first, settles on the record that the handlers' linear search finds |
| LinkedList.List.FindItem | libs/paho.mqtt.c/src/LinkedList.c:152-186 | returns the node that search settles on and moves the cursor to it; the contents stay |
| LinkedList.List.Unlink | libs/paho.mqtt.c/src/LinkedList.c:199-234 | removes exactly that node, keeps the order of the rest and every prev, next, first, last and count; the cursor stays or moves to the successor of a removed node |
| LinkedList.List.Append | libs/paho.mqtt.c/src/LinkedList.c:72-84 | adds at the end with all links sound |
| LinkedList.List.Insert | libs/paho.mqtt.c/src/LinkedList.c:108-129 | inserts in front of the given node, or at the end, with all links sound |
| LinkedList.List.DetachHead | libs/paho.mqtt.c/src/LinkedList.c:266-284 | takes the first element; the cursor leaves it for its successor |
| LinkedList.List.PopTail | libs/paho.mqtt.c/src/LinkedList.c:304-322 | takes the last element; the cursor leaves it for its predecessor |
| Backoff.IntervalClosedForm | libs/paho.mqtt.c/src/MQTTAsync.c:918-931 | with 0 < min <= max, after k failures without a success the interval is min(minRetryInterval * 2^(k-1), maxRetryInterval); it starts again after a success |
| Backoff.LimitNeedsOrder | libs/paho.mqtt.c/src/MQTTAsync.c:918-931 | the interval stays within the maximum in every run exactly when min <= max: the first interval is not limited |
| Backoff.Reconnector.StartConnectRetry | libs/paho.mqtt.c/src/MQTTAsync.c:918-931 | in place: the fields change as the step of that machine says |

## Left out

- QoS 0 messages, the connection handshake and session cleaning do not occur in the two-party runs; a session clean
  on one side ends the guarantee by design.
- Crash points inside a handler: the store and the lists are compared between steps only, and store operations
  always succeed.
- The inbound store may hold a PUBLISH that was refused while a write was pending; a held message and its stored copy are therefore only shown to have the same id and kind for one client alone, and the same data in two-party runs.
- `state.publications` and the list of pending copies are shared by all clients of a process; one client's share is modelled, and one object for each socket.
- Lists inside the client record and the command list are sequences; the pointer list under them is proved separately
  in `LinkedList` and `PersistedList`. The field `List.size` is not modelled: it is never reduced.
- ClientRecord.Client.StartPublish: the branch of createMessage that raises the reference count of an existing record is not modelled, because no caller reaches it.
- The topic length field of a queued message next to the topic; a parsed topic ends at its first NUL, and the length
  that counts embedded NULs is dropped.
- ClientRecord.Client.Restore: a record of the wrong kind under a key, or one shorter than its header, counts as a bad record; the C code reads past the buffer or reinterprets the structure.
- Packets.ParseStored: lengths and multiplier are unbounded; a stored length field of five or more bytes overflows an int in C.
- Packets.ParseLength: the value is unbounded, and a field that does not end counts as bad; the C code uses an int and reads on.
- ClientRecord.Client.RestoreMessageQueue: an entry too short to be read is skipped; the C code reads past the buffer.
- Records of integers are in the layout of a little-endian host with four-byte ints.
- Keys are a datatype instead of strings with a prefix and a decimal number.
- Only the asynchronous client sets a retry interval (MQTTAsync.c:2481), so live resending occurs only there; the runs take their
  ids from the synchronous client's allocation, which for the ids of `AtLeastOnce.LosingRun` gives the same.
- Asynchronous ids against restored messages, matching of responses with callbacks, the order of restored commands and
  direct delivery to a message callback.
- CommandQueue.RunKeepsFifo: persistence of the queued commands is not part of the run; their codec is in `Records`.
- Backoff.IntervalClosedForm: int overflow of the doubled interval is not modelled.
- One pass over all ready sockets, TLS sockets, resumed reads and the file store.
- The Qt application, QML, translations, heap tracking and logging.
