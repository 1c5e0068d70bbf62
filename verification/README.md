# gowarcraft3 in Dafny

A model of the core of gowarcraft3 with proofs about it. The parts are:

- **The lock-step host** (`LockStep`, `GameHost`): players acknowledge every turn with a checksum; the host queues acks
  until the slowest player has answered, compares one of each, and votes out whoever disagrees. `LockStep` is a state
  machine over values with whole-run results; `GameHost` has the ring buffers, maps and loops of the Go code and refines it.
- **Sending turns** (`Fragments`, `TimeSlots`, `Framing`, `Deliveries`): the action queue is cut into packets, serialized,
  framed, read back and put together again; packets that do not decode are skipped or end the connection.
- **The lobby** (`Lobbies`, `LobbyTeams`, `LobbyLaws`, `LobbyHost`, `SlotTable`, `BitSets`): player ids, teams and colours
  are handed out by bit scans over the slots.
- **Concurrency** (`ReadLock`, `EventPool`, `Emitter`, `PeerDial`): a read-preferring lock, a lock-free pool of events, once-
  handlers under nested and concurrent passes, and two hosts that dial each other at the same time. Each is a state machine
  over the atomic steps of the code.
- **Packets** (`Wire`, `StatStrings`, `GameInfos`, `PacketReuse`, `MessageReuse`, `Layouts`, `RoundTrips`): codecs, structs
  that are decoded over their old contents, where every field is, and exactly what each format can carry.
- **Replays** (`HeaderSearch`, `Records`, `RecordLaws`, `RecordReader`, `RecordWriter`, `Blocks`, `Compress`, `Decompress`, `Replays`,
  `ReplayFile`, `Peekers`): the search for the header, records with padding, and compressed blocks from the writer to the reader.

## How the code is represented

- A decoder is a function from bytes to `Outcome`: a value with the bytes left, an error, or the run-time panic of a read
  past the buffer. The methods take any bytes and end in one of these ways, with `Panic` for the last.
- CRC-32 and zlib are parameters: whether zlib takes a block, the bytes it hands out, the error it ends with, and how much
  input it has left unread at each point. Nothing is asked of them but that the sum of nothing is zero. A block is good
  (`Blocks.Good`) if zlib takes it, hands out its data, has read it whole by then (`Eager`), ends without an error of its
  own, and its sizes fit the header. `Replays.BlocksOf` gives the blocks that writes become, so the end-to-end results ask
  for good blocks of those and no others; `GoodWithin` bounds their lengths.
- An ack (enqueue, tick, drain) is one step, and so is a join with the setting of the player's mask bit; nobody joins a
  started game. `SplitAckOverdrains` and `SplitAckPanics` show what happens without the first.
- The results about whole games hold for runs with `LockStep.FreshJoins`: nobody joins under an id whose PlayerLeft event is
  still to be handled. The code does not see to that, and nothing less will do: after any other join there is a way on to
  the panic (`PendingJoinPanics`). `LeftKeepsIff` says what happens step by step.
- Lobby runs start from base slots that are unoccupied, have player id 0 and number at most 32. Sends inside join succeed and
  the lobby is not closed. Where `BitSet32` panics on a team or colour above 31 the methods of `LobbyHost.Host` answer
  `Panicked`; the value model goes on, so its runs include those of the code. `LobbyTeams.RunNeverPanics` says which lobbies
  never get there, `ColorsStaySmallIff` which steps lead there.
- A `Peeker` is a `bufio.Reader` that shows at most `cap` bytes.
- `BitSet32` is a sequence of 32 booleans.

## What the proofs say about the code

- Dropping stragglers empties the ack mask, and a game with an empty mask never compares an ack again
  (`LiveIff`, `StallsForever`).
- If nobody acks ahead of the game and no stragglers are dropped, the host has compared as many acks as the slowest player
  has sent (`ComparesAllItCan`).
- The budget of a fragment counts seven header bytes where eight are written: packets can have 1201 bytes (`PacketBound`).
- A once-handler can run twice when a pass starts while another may still call it or has just called it
  (`UnsafeCallsTwice`); if no pass starts so, it runs at most once (`OnceAtMostOnce`).
- Whenever the lower host dials while another of its dials is in flight, both can be lost and leave the hosts unconnected
  (`OverlappingDialLoses`); otherwise its dial wins (`LowerDialWins`).
- An id can be handed out again before PlayerLeft is handled for its last owner; handling it can then panic
  (`ReusedIdPanics`, `PendingJoinPanics`, `GameHost.ReuseId`).
- With more observers than colours an observer gets no colour, and the lobby panics once that observer plays
  (`RolesTradedPanics`); with custom forces and more slots than colours a second join is enough (`CustomForcesPanic`).
  `ColorsStaySmallIff` has all such steps.
- Off and OffAll panic on an emitter that nobody has registered with (`OffUnregistered`).
- A slot that is vacated goes back to its base slot, so after OpenAllSlots, CloseAllSlots or an exchange with an empty slot a
  join and a leave do not cancel out (`JoinThenLeaveIff`).
- A chat message without a terminator ends its connection, while other packets that do not decode are skipped
  (`BadMessageEndsIff`).
- A shuffle can turn an observer into a player above the limit (`ShuffleBreaksLimit`, `MoveKeepsTeamsIff`).
- The size guard of the chat record asks for three bytes and four are read (`CutPanicsIff`).
- The guard on an action's length forgets its three header bytes (`TimeSlots.DecodePanicsIff`, `Records.DecodePanicsIff`);
  the guard on the slots of a SlotInfo lets slots through that are narrower than what is read (`SlotInfoPanicsIff`);
  a lone control byte in a statstring makes GameInfo run past its packet (`InfoPanicsIff`).
- The header search steps over signatures when its reader shows fewer than 2048 bytes (`FindsAllIff`).
- A read that ends with a block fails unless zlib has read the block whole by then (`ExactEndIff`), and the reader does not
  get past that block any more (`LazyBlockSticks`).
- A block whose compressed size does not fit its field is cut, and the next header is read from the middle of it
  (`NextOfAny`, `CutBlockFails`).
- If a replay's first block claims to hold data and is refused, the Read after that panics (`SecondReadPanicsIff`).
- Read compares the length of its slice as a uint32, so a slice of 2^32 bytes can get padding (`LongSliceIgnoresTotal`).
- A record longer than the reader's buffer cannot be read, and a reader that shows fewer than 1024 bytes never reaches EOF
  (`StreamReadsIff`, `SmallReaderNeverEnds`).

## Model

| member | source | states |
|---|---|---|
| LockStep.WinnerIsLexicographic | network/lobby/game.go:340-367 | the checksum with the largest tally is the one that is maximal in the order (players voting for it, then observers voting for it), and conversely |
| LockStep.DrainSurvivors | network/lobby/game.go:290-337 | over a whole drain exactly those players survive whose queue starts with the winning checksums; somebody survives; the mask names exactly the survivors with nothing queued |
| LockStep.RoundShrinks | network/lobby/game.go:300-333 | each pass over the players lessens the number of queued acks |
| LockStep.DrainEnds | network/lobby/game.go:290-337 | from any state with an ack queued for everybody the drain loop reaches an end, desync removals included |
| LockStep.DrainsUnlessPanics | network/lobby/game.go:290-337 | drainAcks has an outcome if and only if it does not hit the failed dequeue |
| LockStep.InvStep | network/lobby/game.go:383-457 | joining, acking, leaving, removing and dropping stragglers all keep the barrier invariant, save a PlayerLeft that is handled too late: a player without a mask bit has an ack queued, compared acks agree, ticks count acks |
| LockStep.LeftKeepsIff | network/lobby/game.go:407-413 | handling PlayerLeft from an invariant state neither panics nor breaks the barrier, if and only if nobody plays under the id who still needs the bit |
| LockStep.ReusedIdPanics | network/lobby/lobby.go:816-836 | a run in which an id is handed out again before the PlayerLeft event of its last owner: handling the event reaches the panic |
| LockStep.PendingJoinPanics | network/lobby/lobby.go:816-836 | the converse: from the last state of every run, once somebody joins under an id whose PlayerLeft is pending, there is a continuation in which handling that event reaches the panic |
| LockStep.RunKeepsInv | network/lobby/game.go:383-457 | the barrier invariant holds in every state of every run in which nobody joins under an id whose PlayerLeft is pending |
| LockStep.StepNeverPanics | network/lobby/game.go:305-308 | no step from an invariant state reaches the panic of drainAcks, save a PlayerLeft that is handled too late |
| LockStep.RunNeverPanics | network/lobby/game.go:290-337 | in every such run every drain that a step calls ends without the panic |
| LockStep.StepConservesAcks | network/lobby/player.go:315-334 | what a player has had compared, followed by what is queued, changes only by the ack received: none lost, doubled or reordered |
| LockStep.RunAgrees | network/lobby/game.go:300-333 | in every such run all players still in the game have had the same checksums compared, in the same order, and a tick count is compared plus queued acks modulo 2^32 |
| LockStep.LiveIff | network/lobby/game.go:427-457 | a step leaves a game that can still progress unless it drops stragglers while somebody is not one; then and only then it does not |
| LockStep.StallsForever | network/lobby/game.go:436-455 | once the mask is empty in a started game no ack is ever compared again and the mask stays empty, in every continuation |
| LockStep.AckIsUsedIff | network/lobby/game.go:427-457 | an ack of a turn that has been sent clears the sender's bit or is compared at once; one of a turn yet to be sent changes no bit and compares nothing |
| LockStep.TooFarAheadIff | network/lobby/game.go:436-436 | stragglers are dropped from 2000 queued acks on, or from 30 seconds' worth of turns and one, whichever is less |
| LockStep.TickCountsTurns | network/lobby/game.go:224-224 | in every run the host's tick is the number of turns sent, modulo 2^32 |
| LockStep.TightIff | network/lobby/game.go:290-457 | that every live straggler's queue is empty and somebody straggles is kept by exactly those steps that are not a straggler's ack ahead of the game or a drop that leaves others |
| LockStep.ComparesAllItCan | network/lobby/game.go:290-337 | in every run without such steps and with fresh joins, while no PlayerLeft is pending, the number of acks compared is the least number received from anybody in the game |
| LockStep.DrainSafeIff | network/lobby/game.go:290-337 | drainAcks(pid) keeps the barrier invariant and does not panic if and only if pid, when live and straggling, has an ack queued |
| LockStep.SplitAckOverdrains | network/lobby/player.go:315-334 | from a state that a run reaches, an interleaving between the two locks of an ack that drains the ack before its tick is handled |
| LockStep.SplitAckPanics | network/lobby/game.go:427-457 | the rest of that interleaving ends in the panic of drainAcks, so the one-step ack of the other results is needed |
| GameHost.RingPush | network/lobby/player.go:315-334 | writing behind the last entry of the ring appends to the queue it stands for |
| GameHost.RingPop | network/lobby/player.go:138-152 | moving the ring's start forward drops the head of the queue it stands for |
| GameHost.Player.constructor | network/lobby/player.go:43-56 | a new player has an empty queue and has had nothing compared |
| GameHost.Player.DequeueAck | network/lobby/player.go:138-152 | answers and removes the oldest queued ack; fails, changing nothing, exactly when none is queued; says whether more are queued |
| GameHost.Player.EnqueueAck | network/lobby/player.go:315-334 | appends an ack to the FIFO unless 2048 are waiting, in which case nothing changes |
| GameHost.Game.constructor | network/lobby/game.go:48-58 | a new game is the initial state of the value model |
| GameHost.Game.TallyVotes | network/lobby/game.go:340-360 | the checksum it answers wins the vote: no other was acked by more players, who sit in slots of a playing team, nor by as many players and more observers |
| GameHost.Game.Desync | network/lobby/game.go:340-367 | exactly the players who did not ack the winning checksum are removed, and that one has the most players by their slots' teams, observers only breaking ties |
| GameHost.WinnerHasPlayers | network/lobby/game.go:340-360 | a winner of the tally is a checksum acked from the most slots of playing teams |
| GameHost.PlayersOutvote | network/lobby/game.go:345-350 | if anybody who acked sits in a playing slot, so does somebody who acked the winning checksum, however many observers disagree |
| GameHost.Game.CollectAcks | network/lobby/game.go:304-321 | panics exactly if somebody has nothing queued; otherwise every player's oldest ack is taken, once |
| GameHost.Game.AcksAgree | network/lobby/game.go:327-332 | says whether all acks taken are the same |
| GameHost.Game.Settle | network/lobby/game.go:323-332 | the players left after a pass are those of one round of the value model, for a winning checksum |
| GameHost.Game.DrainPass | network/lobby/game.go:300-333 | one pass of the outer loop panics exactly if somebody has nothing queued; otherwise it is one round of the value model, collects one ack of every player and answers how many |
| GameHost.Game.DrainLoop | network/lobby/game.go:290-337 | the loop refines the drain of the value model, its panic included |
| GameHost.Game.DrainAcks | network/lobby/game.go:290-337 | panics exactly where the value model says so, and otherwise refines its drainAcks |
| GameHost.Game.DropStragglers | network/lobby/game.go:436-452 | every straggler, and nobody else, is taken out of the game and the mask is emptied |
| GameHost.Game.GameTick | network/lobby/game.go:427-457 | refines one tick of the value model |
| GameHost.Game.Ack | network/lobby/game.go:427-457 | the handler refines the value model's ack step and keeps the invariant |
| GameHost.Game.StrayAck | network/lobby/game.go:427-457 | an ack of somebody who is no longer in the game refines its step and keeps the invariant |
| GameHost.Game.PlayerLeft | network/lobby/game.go:407-413 | from any state the handler panics exactly where drainAcks does and otherwise refines the leave step; from an invariant one it does neither harm unless it comes too late |
| GameHost.Game.Join | network/lobby/game.go:383-388 | the handler refines the join step and keeps the invariant, also for an id whose PlayerLeft is pending |
| GameHost.Game.Remove | network/lobby/lobby.go:816-820 | taking a player out of the map refines its step and keeps the invariant |
| GameHost.ReuseId | network/lobby/lobby.go:816-836 | from a new game, for any id: join, remove, join again, and the handler of the first player's PlayerLeft panics |
| Fragments.SplitsUnique | network/lobby/game.go:83-98 | at most one cut point is a cut of splitActions |
| Fragments.CutProgressIff | network/lobby/game.go:83-98 | a cut takes something off a non-empty queue if and only if its first action is at most mtu-10 bytes long |
| Fragments.SendEndsIff | network/lobby/game.go:226-230 | the send loop ends if and only if every action is at most mtu-10 bytes long |
| Fragments.SentCarriesQueue | network/lobby/game.go:226-230 | the packets of a tick carry the queue in order, all but the last are marked as fragments, and each stays within the budget |
| Fragments.PacketBound | protocol/w3gs/packets.go:1185-1216 | a packet within the budget of splitActions is at most 1201 bytes long, and no other is |
| Fragments.SentIsShortest | network/lobby/game.go:83-98 | no way of cutting the queue into packets within the budget needs fewer of them |
| Fragments.ActionQueue.OnGameAction | network/lobby/game.go:415-425 | an action that is too long is refused, any other is appended; the queue stays sendable |
| Fragments.ActionQueue.SplitActions | network/lobby/game.go:83-98 | takes off the longest front within the budget and says whether anything is left |
| Fragments.ActionQueue.Send | network/lobby/game.go:226-230 | the loop ends, sends what the queue held, and leaves it empty |
| TimeSlots.RoundTrip | protocol/w3gs/packets.go:1185-1269 | a TimeSlot that fits its 16-bit size is decoded back, and what follows it is left |
| TimeSlots.Serialize | protocol/w3gs/packets.go:1185-1216 | writes the wire form, with the size and the checksum filled in afterwards |
| TimeSlots.Packet.DeserializeActions | protocol/w3gs/packets.go:1242-1268 | the loop over reused storage decodes what the bytes say, or panics where they say so |
| TimeSlots.Packet.Deserialize | protocol/w3gs/packets.go:1219-1269 | value, error and panic depend on the bytes alone, whatever the reused struct held |
| TimeSlots.ActionsPanicIff | protocol/w3gs/packets.go:1245-1262 | the loop panics if and only if whole actions are followed by one whose length passes the guard and is more than the buffer has |
| TimeSlots.DecodePanicsIff | protocol/w3gs/packets.go:1219-1269 | Deserialize panics if and only if the checksum is right and such an action comes last |
| TimeSlots.ShortActionPanics | protocol/w3gs/packets.go:1257-1262 | a packet of eleven bytes on which it does |
| Layouts.TimeSlotLayout | protocol/w3gs/packets.go:1185-1216 | every byte of a TimeSlot before its actions, in numbers |
| Layouts.ActionsLayout | protocol/w3gs/packets.go:1185-1216 | every byte of an action: player, length, data, and the next one behind it |
| Layouts.EmptyTurnIsRead | protocol/w3gs/packets.go:1219-1240 | six bytes are a turn without actions, which needs no checksum |
| Layouts.ChecksumRefusedIff | protocol/w3gs/packets.go:1219-1243 | a turn is refused for its checksum if and only if it is whole, has one, and that of its actions differs |
| RoundTrips.TimeSlotIff | protocol/w3gs/packets.go:1185-1269 | a TimeSlot is read back as written if and only if its size fits 16 bits |
| Wire.Get16OfLE16 | protocol/buffer.go:334-338 | a 16-bit integer written is read back |
| Wire.Get32OfLE32 | protocol/buffer.go:341-345 | a 32-bit integer written is read back |
| Wire.TakeCStringOf | protocol/buffer.go:406-416 | a NUL-free string written with its terminator is read back, and what follows it is left |
| Wire.Buffer.WriteUInt16 | protocol/buffer.go:74-76 | appends the two bytes, low byte first |
| Wire.Buffer.WriteUInt32 | protocol/buffer.go:79-81 | appends the four bytes, low byte first |
| Wire.Buffer.WriteUInt16At | protocol/buffer.go:169-171 | overwrites two bytes and nothing else |
| Wire.Buffer.WriteUInt32At | protocol/buffer.go:174-176 | overwrites four bytes and nothing else |
| Wire.Buffer.WriteCString | protocol/buffer.go:143-146 | appends the string and its terminator |
| Wire.Buffer.ReadUInt16 | protocol/buffer.go:334-338 | takes two bytes off the front |
| Wire.Buffer.ReadUInt32 | protocol/buffer.go:341-345 | takes four bytes off the front |
| Wire.Buffer.ReadBlob | protocol/buffer.go:316-324 | takes exactly n bytes off the front |
| Wire.Buffer.ReadCString | protocol/buffer.go:406-416 | takes the bytes before the first NUL and the NUL; without a NUL it fails and uses up the buffer |
| BitSets.Insert | protocol/bitset.go:151-157 | adds one member |
| BitSets.Clear | protocol/bitset.go:160-166 | removes one member |
| BitSets.SameMembers | protocol/bitset.go:128-157 | a word is determined by its members |
| BitSets.TrailingZeros32 | network/lobby/lobby.go:100-107 | one less than the least member; 32 for the empty set |
| Framing.DeliveredFrames | protocol/w3gs/serialization.go:93-139 | over well-formed frames each read consumes exactly one frame, decodable or not |
| Framing.BadFrameLeavesNoTrace | network/network.go:330-351 | a frame that fails to decode with a recoverable error does not change what is delivered of the others |
| Deliveries.BadTimeSlotIsSkipped | network/network.go:336-341 | a TimeSlot that fails to decode, for whatever reason, is skipped: before and after it everything is delivered as if it were absent |
| Deliveries.BadSlotInfoIsSkipped | network/network.go:336-341 | the same for a SlotInfo that fails to decode |
| Deliveries.BadStartLagIsSkipped | network/network.go:336-341 | the same for a StartLag that fails to decode |
| Deliveries.BadDesyncIsSkipped | network/network.go:336-341 | the same for a Desync that fails to decode |
| Deliveries.BadMessageEndsIff | network/network.go:336-346 | a Message that fails to decode ends the connection, so that nothing after it is delivered, if and only if its text has no terminator; otherwise it is skipped |
| Deliveries.DeliveredIs | protocol/w3gs/serialization.go:93-140 | any stream is whole packets followed by something that is none, and delivers what those packets deliver |
| Deliveries.StopsBecause | protocol/w3gs/serialization.go:93-121 | which error ends the reading: the end of the stream, a packet cut short, or something that is no packet |
| Framing.StreamRoundTrip | protocol/w3gs/serialization.go:124-139 | packets written back to back are read back as the same sequence |
| Framing.EncodedIsFrame | protocol/w3gs/packets.go:1185-1216 | a serialized TimeSlot is a well-formed frame that decodes to it with nothing left over |
| Framing.TickArrives | network/lobby/game.go:226-230 | end to end: the receiver of a tick's packets gets exactly those packets and joins them to the host's queue |
| Framing.Reader.ReadFull | protocol/buffer.go:262-274 | reads n bytes, or what there is with an error that tells an empty stream from a cut one |
| Framing.Decoder.ReadRaw | protocol/w3gs/serialization.go:93-121 | refines the frame reader of the value model on every stream |
| Framing.Decoder.Read | protocol/w3gs/serialization.go:124-139 | one read is one event of the value model and leaves the stream after the frame |
| Framing.Decoder.Run | network/network.go:330-351 | the packets fired are those the value model delivers from the stream |
| StatStrings.UnshiftOf | protocol/w3gs/packets.go:1732-1743 | decoding the 7-to-8 byte code gives back every byte string |
| StatStrings.ShiftIsOdd | protocol/w3gs/packets.go:1700-1718 | every byte of the code is odd, so it holds no NUL |
| StatStrings.ShiftLength | protocol/w3gs/packets.go:1700-1718 | the code is longer by one byte for every seven begun |
| StatStrings.Decode | protocol/w3gs/packets.go:1721-1788 | no byte string makes the decoder read past its buffer |
| StatStrings.RoundTrip | protocol/w3gs/packets.go:1688-1788 | settings with NUL-free strings are decoded back whatever follows, and exactly what follows is left |
| Layouts.PlainLayout | protocol/w3gs/packets.go:1688-1700 | where every field of the settings is, in numbers |
| Layouts.ShiftAt | protocol/w3gs/packets.go:1700-1718 | the code, bit by bit: a control byte before every seven, its bit 0 set, bit j + 1 set if the j-th is odd, and every even byte sent one higher |
| RoundTrips.SettingsIff | protocol/w3gs/packets.go:1688-1788 | settings are read back as written if and only if their strings have no null byte |
| RoundTrips.OldSettingsAreRead | protocol/w3gs/packets.go:1721-1788 | settings without the SHA-1 sum are read with zeros in its place |
| StatStrings.SizeIsLength | protocol/w3gs/packets.go:1682-1685 | Size is the length of the encoding |
| StatStrings.WriteGroup | protocol/w3gs/packets.go:1701-1716 | a group is written with its control byte patched in afterwards |
| StatStrings.SerializeContent | protocol/w3gs/packets.go:1688-1718 | writes the encoding |
| StatStrings.UnshiftLoop | protocol/w3gs/packets.go:1732-1743 | the two loops undo the code |
| StatStrings.DeserializeContent | protocol/w3gs/packets.go:1721-1788 | the settings and the error depend on the bytes alone, whatever the struct held |
| GameInfos.HeaderIsLength | protocol/w3gs/packets.go:1825-1844 | the size in the header is the length of the packet if and only if that fits 16 bits |
| GameInfos.InfoRoundTrip | protocol/w3gs/packets.go:1825-1884 | a GameInfo that fits is decoded back, and what follows it is left |
| Layouts.GameInfoLayout | protocol/w3gs/packets.go:1825-1845 | where every field of a GameInfo is, in numbers |
| RoundTrips.GameInfoIff | protocol/w3gs/packets.go:1825-1884 | a GameInfo is read back as written if and only if its strings have no null byte and it is shorter than 2^16 bytes |
| GameInfos.DeserializeInfo | protocol/w3gs/packets.go:1847-1884 | packet, error and panic depend on the bytes alone, whatever the struct held |
| StatStrings.DecodedFits | protocol/w3gs/packets.go:1721-1788 | a statstring that decodes is at most one byte longer than Size says |
| StatStrings.LoneControl | protocol/w3gs/packets.go:1732-1743 | settings that fill their groups of seven are decoded back also with a lone control byte behind them |
| GameInfos.InfoPanicsIff | protocol/w3gs/packets.go:1847-1884 | Deserialize panics if and only if the statstring is one byte longer than Size says and nothing follows the packet |
| GameInfos.LoneControlPanics | protocol/w3gs/packets.go:1870-1881 | a packet on which it does, for every GameInfo whose settings fill their groups of seven |
| PacketReuse.SlotInfoRoundTrip | protocol/w3gs/packets.go:478-583 | a SlotInfo of up to 255 slots is decoded back, and what follows it is left |
| Layouts.PacketLayout | protocol/w3gs/packets.go:478-487 | signature, id and size of a packet, in numbers |
| Layouts.SlotInfoLayout | protocol/w3gs/packets.go:507-527 | where every field of a SlotInfo is, in numbers |
| Layouts.SlotAt | protocol/w3gs/packets.go:507-527 | where every field of the i-th slot is written |
| Layouts.SlotReadFrom | protocol/w3gs/packets.go:529-583 | the i-th of slots of seven, eight or nine bytes is read from its own bytes |
| Layouts.SlotIs | protocol/w3gs/packets.go:529-583 | what each byte of a slot of any width is read as, and what stands for the missing ones |
| RoundTrips.SlotInfoIff | protocol/w3gs/packets.go:478-583 | a SlotInfo is read back as written if and only if it has fewer than 256 slots |
| PacketReuse.SlotInfoPacket.ReadSlots | protocol/w3gs/packets.go:553-576 | every slot of the reused slice is overwritten with what the bytes say, for slots of seven, eight and nine bytes, or the buffer is too short and it panics |
| PacketReuse.SlotInfoPacket.DeserializeContent | protocol/w3gs/packets.go:529-583 | value, error and panic depend on the bytes alone, whatever the struct held |
| PacketReuse.SlotInfoPacket.Deserialize | protocol/w3gs/packets.go:489-504 | the same for the whole packet |
| PacketReuse.ContentPanicsIff | protocol/w3gs/packets.go:529-583 | DeserializeContent panics if and only if the slots are narrower than the seven bytes read for each and the buffer has too few behind them |
| PacketReuse.SlotInfoPanicsIff | protocol/w3gs/packets.go:489-504 | the same for the whole packet |
| PacketReuse.NoWidthPanics | protocol/w3gs/packets.go:542-576 | a packet of thirteen bytes on which it does |
| MessageReuse.MessageRoundTrip | protocol/w3gs/packets.go:1411-1486 | a message with NUL-free text that fits is decoded back up to the fields its kind does not send |
| Layouts.MessageLayout | protocol/w3gs/packets.go:1411-1440 | where every field of a Message is, for each kind, in numbers |
| RoundTrips.MessageIff | protocol/w3gs/packets.go:1411-1486 | a Message is read back, as far as its kind sends it, if and only if its text has no null byte and its sizes fit |
| MessageReuse.DecodeMessage | protocol/w3gs/packets.go:1443-1486 | no byte string makes the decoder read past its buffer |
| MessageReuse.MessagePacket.Deserialize | protocol/w3gs/packets.go:1443-1486 | the value and the error depend on the bytes alone, whatever the struct held |
| MessageReuse.StartLagRoundTrip | protocol/w3gs/packets.go:989-1025 | a lag list of up to 255 players is decoded back |
| Layouts.LagAt | protocol/w3gs/packets.go:989-1001 | where the i-th lagging player is written |
| RoundTrips.StartLagIff | protocol/w3gs/packets.go:989-1025 | a StartLag is read back as written if and only if it has fewer than 256 players |
| MessageReuse.DecodeStartLag | protocol/w3gs/packets.go:1003-1025 | no byte string makes the decoder read past its buffer |
| MessageReuse.StartLagPacket.Deserialize | protocol/w3gs/packets.go:1003-1025 | the value and the error depend on the bytes alone, whatever the struct held |
| MessageReuse.DesyncRoundTrip | protocol/w3gs/packets.go:1325-1374 | a desync report on up to 255 players is decoded back |
| Layouts.DesyncLayout | protocol/w3gs/packets.go:1351-1358 | where every field of a Desync is, in numbers |
| RoundTrips.DesyncIff | protocol/w3gs/packets.go:1325-1374 | a Desync is read back as written if and only if it names fewer than 256 players |
| MessageReuse.DecodeDesync | protocol/w3gs/packets.go:1334-1374 | no byte string makes the decoder read past its buffer |
| MessageReuse.DesyncPacket.Deserialize | protocol/w3gs/packets.go:1334-1374 | the value and the error depend on the bytes alone, whatever the struct held |
| ReadLock.InvStep | network/rwmutex.go:17-37 | every atomic step of every thread keeps the count in line with the admitted readers and the writer lock with the first and last of them |
| ReadLock.RunKeepsInv | network/rwmutex.go:17-37 | that holds in every state of every interleaving |
| ReadLock.RunExcludes | network/rwmutex.go:17-37 | for any number of threads a writer is never admitted together with a reader, rcount is the number of admitted readers whenever rmutex is free, and nothing panics |
| ReadLock.NestedReadNeverWaits | network/network.go:307-351 | while a thread holds a read lock nobody inside rmutex waits for the writer lock, so a nested RLock is not blocked |
| ReadLock.InsideIsFinite | network/rwmutex.go:17-37 | every step inside rmutex brings it closer to being free |
| ReadLock.WriterEntersIff | network/rwmutex.go:17-37 | in every run, with nobody between the reader locks, a writer can enter if and only if nobody reads or writes |
| ReadLock.ReaderEnters | network/rwmutex.go:17-25 | from every such state without a writer a reader gets in by its own steps and is counted once |
| EventPool.InvStep | network/events.go:161-186 | load, compare-and-swap, clear and release all keep a mask bit set exactly while one call owns the slot |
| EventPool.RunKeepsInv | network/events.go:161-186 | that holds in every state of every interleaving of Fire calls |
| EventPool.RunIsExclusive | network/events.go:161-186 | no two calls in flight own the same pooled event, and a bit is set if and only if some call owns its slot |
| EventPool.HandedOutZeroed | network/events.go:222-246 | a pooled event is zero when it is handed out |
| EventPool.QuietPoolIsFree | network/events.go:172-186 | in every run, when all calls have returned, every pooled event is free and zero |
| EventPool.ClaimTakesIff | network/events.go:161-170 | a call gets a pooled event if and only if one was free when it looked and the mask has not changed since |
| Emitter.InvStep | network/events.go:85-158 | registering, removing and the steps of nested or concurrent passes keep handler lists in descending id order and passes in line with them |
| Emitter.RunKeepsInv | network/events.go:85-158 | that holds in every state of every interleaving |
| Emitter.RangeIsCalled | network/events.go:144-158 | the id range of offOnce covers exactly the once-handlers that the pass has called and that are still listed |
| Emitter.PassRemovesCalled | network/events.go:188-216 | what the end of a pass leaves is the list without the once-handlers it called |
| Emitter.FinishRemovesCalled | network/events.go:188-216 | in every run: none skipped by PreventNext, none registered after the snapshot and none of another topic is removed |
| Emitter.OnceAtMostOnce | network/events.go:188-246 | a once-handler runs at most once in any run whose passes start only while no other pass may still call a listed once-handler of the topic or has done so |
| Emitter.UnsafeCallsTwice | network/events.go:188-246 | whenever a pass starts outside that condition there is a continuation in which a once-handler runs twice |
| Emitter.EventEmitter.AddHandler | network/events.go:85-106 | puts a handler with a fresh, larger id in front |
| Emitter.EventEmitter.Off | network/events.go:119-133 | panics exactly if nobody has registered yet; otherwise the in-place filter removes exactly the handler with that id |
| Emitter.EventEmitter.OffAll | network/events.go:135-142 | panics exactly if nobody has registered yet; otherwise the topic has no handlers |
| Emitter.OffUnregistered | network/events.go:119-133 | Off on a new emitter panics |
| Emitter.FinishIsRegistered | network/events.go:188-216 | in every run the end of a pass with handlers in its snapshot finds the map made, so only Off and OffAll can panic |
| Emitter.EventEmitter.OffOnceRange | network/events.go:144-158 | panics exactly if nobody has registered yet; otherwise the in-place filter removes exactly the once-handlers with ids in the range |
| Emitter.EventEmitter.FinishPass | network/events.go:211-215 | the end of a pass refines the value model's step; it panics exactly if a once-handler was called and nobody has registered |
| Emitter.RemoveId | network/events.go:121-131 | the loop that compacts the array in place keeps exactly the other handlers, in order |
| Emitter.WithoutIdTakes | network/events.go:121-131 | wherever a handler is in its list, exactly that one goes and the others keep their order |
| Emitter.RemoveOnce | network/events.go:146-156 | the loop that compacts the array in place keeps exactly the handlers that are not once-handlers in the range, in order |
| PeerDial.InvStep | network/peer/host.go:141-295 | dialing, accepting, answering and disconnecting keep each host serving at most the connection it holds |
| PeerDial.RunKeepsInv | network/peer/host.go:141-295 | that holds in every state of every interleaving of two hosts |
| PeerDial.SettledAgree | network/peer/host.go:141-295 | when all handshakes have settled both hosts hold the same connection or neither holds one, and the bit says which |
| PeerDial.BitIsHeld | network/peer/host.go:336-373 | at every moment the peerset bit is set if and only if the host serves a connection |
| PeerDial.LowerDialWins | network/peer/host.go:141-295 | if the lower host never has two dials in flight, its dial is the connection both hold in the end |
| PeerDial.OverlappingDialLoses | network/peer/host.go:209-295 | and only then: from every reachable state in which the lower host starts a dial while another is in flight, the run can go on so that both are accepted, both are lost and neither host holds a connection |
| PeerDial.OverlappingDialsCanLose | network/peer/host.go:141-295 | a run of two dials that ends settled, with both accepted, both lost and the hosts unconnected |
| PeerDial.WorkStep | network/peer/host.go:141-373 | every step but a new dial lessens a measure, so the hosts settle |
| SlotTable.PidToSid | network/lobby/lobby.go:70-77 | finds the first slot with the id |
| Lobbies.Pigeonhole | network/lobby/lobby.go:100-120 | a search for the least unused number passes over no more numbers than are used |
| Lobbies.FreePidFits | network/lobby/lobby.go:100-107 | while a slot is open the id found is unused and at most 32 |
| Lobbies.StepKeepsSeats | network/lobby/lobby.go:218-427 | every operation keeps the seating: slots are vacant, a computer's or one live player's, and every live player has one |
| Lobbies.RunKeepsSeats | network/lobby/lobby.go:218-836 | the seating holds in every state of every run |
| Lobbies.RunSeatsPlayers | network/lobby/lobby.go:70-77 | in every run a live player sits in exactly one slot, occupied and no computer's, so the search for it never fails; and an occupied slot that is no computer's is a live player's |
| Lobbies.RunGivesLeastPid | network/lobby/lobby.go:218-306 | in every run a player who joins gets the least id that no live player has |
| LobbyTeams.InitSlotTeam | network/lobby/lobby.go:150-179 | initSlot fails if and only if the players are complete and observers are off; below the limit it finds a team below the limit that nobody plays for |
| LobbyTeams.StepKeepsTeams | network/lobby/lobby.go:309-427 | every operation but a shuffle keeps the player limit and legal teams |
| LobbyTeams.RunKeepsTeams | network/lobby/lobby.go:110-179 | in every run without shuffles occupied non-observer slots never outnumber NumPlayers and all teams are legal |
| LobbyTeams.MoveKeepsTeamsIff | network/lobby/lobby.go:626-642 | exactly which exchanges of a shuffle keep the player limit and legal teams |
| LobbyTeams.ShuffleBreaksLimit | network/lobby/lobby.go:626-642 | a run of two joins and one exchange of a shuffle that ends with more players than NumPlayers |
| LobbyTeams.FreeColorFits | network/lobby/lobby.go:133-147 | below the player limit a colour of the set is free and is found |
| LobbyTeams.StepKeepsColors | network/lobby/lobby.go:309-427 | every operation but a shuffle keeps the colours distinct |
| LobbyTeams.RunKeepsColors | network/lobby/lobby.go:133-179 | in every run without shuffles occupied slots have pairwise distinct colours of the colour set |
| LobbyTeams.RunNeverPanics | network/lobby/lobby.go:110-147 | in those runs the scans for a team and a colour never panic |
| LobbyTeams.ColorsStaySmallIff | network/lobby/lobby.go:133-142 | exactly which steps, with custom forces or without, leave a player whom availableColors panics on: making a player when no colour is left, giving a playing team to an observer who has none, exchanges that put such a colour under a player |
| LobbyTeams.ForcesKept | network/lobby/lobby.go:150-179 | what that asks of a lobby holds in every run with custom forces and in every run of a melee lobby without shuffles |
| LobbyTeams.CustomForcesPanic | network/lobby/lobby.go:133-179 | a run of two joins with custom forces after which the scan for a colour panics |
| LobbyTeams.RolesTradedPanics | network/lobby/lobby.go:364-379 | a run of two joins in which player and observer trade teams: teams stay legal and the next scan for a colour panics |
| LobbyHost.Host.constructor | network/lobby/lobby.go:44-67 | a new lobby has the base slots and no players |
| LobbyHost.Host.FindEmptySlot | network/lobby/lobby.go:80-87 | the first open slot, or -1 if and only if there is none |
| LobbyHost.Host.FindEmptyPID | network/lobby/lobby.go:100-107 | the bit scan finds the least unused id |
| LobbyHost.Host.FindEmptyTeam | network/lobby/lobby.go:110-120 | the bit scan finds the least unused team; it panics if and only if a player has a team above 31 |
| LobbyHost.Host.CountPlayers | network/lobby/lobby.go:122-130 | the number of occupied non-observer slots |
| LobbyHost.Host.AvailableColors | network/lobby/lobby.go:133-142 | the colours of the set that no player has; it panics if and only if a player has a colour above 31 |
| LobbyHost.Host.FindEmptyColor | network/lobby/lobby.go:145-147 | the least available colour, or 32; panics where the scan does |
| LobbyHost.Host.InitSlot | network/lobby/lobby.go:150-179 | refines the value model's initSlot, with its errors and exactly its panics |
| LobbyHost.Host.Join | network/lobby/lobby.go:218-306 | refines the value model's join; it panics exactly where initSlot does, and succeeds exactly when a new id is added, the least unused one |
| LobbyHost.Host.SwapSlots | network/lobby/lobby.go:309-325 | refines the value model's exchange, with what is exchanged back |
| LobbyHost.Host.ChangeSlotStatus | network/lobby/lobby.go:328-351 | refines the value model; refused exactly for a player who is not to be kicked |
| LobbyHost.Host.ChangeTeam | network/lobby/lobby.go:364-379 | refines the value model; which error, and when |
| LobbyHost.Host.ChangeColor | network/lobby/lobby.go:382-391 | refines the value model; which error or panic, and when |
| LobbyHost.Host.ChangeComputer | network/lobby/lobby.go:404-427 | refines the value model; which error or panic, and when |
| LobbyHost.Host.ChangeAllSlots | network/lobby/lobby.go:520-565 | refines the value model; nothing changes in a locked lobby |
| LobbyHost.Host.ShuffleSlots | network/lobby/lobby.go:626-642 | the shuffle is the run of exchanges that were drawn; for every sequence of draws nobody is lost or seated twice; with all slots occupied and teams kept, the number of players stays |
| LobbyHost.Host.OnLeave | network/lobby/lobby.go:816-836 | the slot of the player who leaves is the base slot again, and nothing else changes |
| LobbyLaws.JoinSucceedsIff | network/lobby/lobby.go:218-240 | a join succeeds if and only if the lobby is not locked, a slot is open, and there is room for a player or an observer |
| LobbyLaws.JoinSeats | network/lobby/lobby.go:150-244 | the slot, race, handicap, colour and id that a player who joins gets, and that no other slot changes |
| LobbyLaws.JoinThenLeaveIff | network/lobby/lobby.go:816-836 | leaving undoes joining if and only if the slot had been as the base slots say |
| LobbyLaws.RunJoinThenLeave | network/lobby/lobby.go:816-836 | so it does in every run without exchanges with empty slots and without opening or closing all slots |
| LobbyLaws.AllGoneIsBase | network/lobby/lobby.go:816-836 | in every such run, when everybody has left, the slots are the base slots again |
| LobbyLaws.StatusTakes | network/lobby/lobby.go:328-351 | opening or closing an empty slot or a computer's takes effect at once, there and in the base slots |
| LobbyLaws.KickThenLeave | network/lobby/lobby.go:328-351 | kicking a player and then losing them is the same as losing them and then opening or closing the slot |
| LobbyLaws.SwapExchanges | network/lobby/lobby.go:309-325 | what moves in an exchange and what stays, field by field |
| LobbyLaws.SwapTwice | network/lobby/lobby.go:309-325 | exchanging twice changes nothing |
| LobbyLaws.TeamChangesIff | network/lobby/lobby.go:364-379 | exactly when a slot gets the team asked for, and that nothing else changes |
| LobbyLaws.ColorChangesIff | network/lobby/lobby.go:382-391 | exactly when a slot gets the colour asked for, and that nothing else changes |
| LobbyLaws.ComputerSitsIff | network/lobby/lobby.go:404-427 | exactly when a slot ends up with a computer of the kind asked for, and that nothing else changes |
| LobbyLaws.RoomIff | network/lobby/lobby.go:150-179 | initSlot finds no room if and only if teams are free, the players are complete and observers are off |
| HeaderSearch.StepOver | file/w3g/header.go:26-47 | the bytes discarded after a window without the signature start no occurrence, also none that straddles the window's end |
| HeaderSearch.FirstInWindow | file/w3g/header.go:26-47 | the first occurrence in a window is the first one of the stream |
| HeaderSearch.SearchFinds | file/w3g/header.go:26-47 | with a reader that shows 2048 bytes the search succeeds if and only if the signature occurs, standing at its first occurrence with the right count; otherwise EOF with the stream used up |
| HeaderSearch.FindHeader | file/w3g/header.go:26-47 | ends on every stream, for every reader, where the value model's search ends |
| HeaderSearch.SmallReaderMisses | file/w3g/header.go:36-39 | for every smaller reader there is a stream whose signature is stepped over |
| HeaderSearch.FindsAllIff | file/w3g/header.go:26-47 | the search is right on all streams if and only if the reader shows 2048 bytes |
| Records.RoundTrip | file/w3g/records.go:280-784 | every record the format can hold decodes, in every version, to what it stores, and leaves what follows it |
| RoundTrips.RecordIff | file/w3g/records.go:280-784 | a record is read back, as far as the format stores it, if and only if it is storable: sizes fit, text has no null byte, and the version has chat |
| RecordLaws.DecodedKind | file/w3g/records.go:29-50 | which record any bytes decode to, by the number of their first byte and of the version: chat, and fragments, for version 0 and from version 3 on |
| RecordLaws.ChatIsRead | file/w3g/records.go:605-667 | the bytes of a chat message, for every version that has chat, decode to it |
| RecordLaws.ScopedChatIsRead | file/w3g/records.go:605-667 | the same for one with a scope |
| RecordLaws.ChangeIsRead | file/w3g/records.go:605-667 | the same for one that carries a value |
| RecordLaws.JoinedChatIsRead | file/w3g/records.go:635-658 | a second text within the size is joined to the first if it is printable; otherwise the record is refused |
| RecordLaws.AckIsRead | file/w3g/records.go:696-711 | the bytes of an ack, under id 0x22 in every version and under id 0x20 in versions 1 and 2, decode to it |
| RecordLaws.SlotIsRead | file/w3g/records.go:509-551 | the bytes of a turn with one action decode to it; id 0x1E is a fragment in every version but 1 and 2 |
| RecordLaws.PlayerLeftIs | file/w3g/records.go:294-316 | exactly which bytes are a PlayerLeft record, and what they say |
| RecordLaws.EndTimerIs | file/w3g/records.go:772-784 | exactly which bytes are an EndTimer record, and what they say |
| RecordLaws.StartIs | file/w3g/records.go:413-426 | exactly which bytes are one of the records of a start |
| RecordLaws.WrittenId | file/w3g/const.go:23-37 | the first byte that every record is written with, for every version |
| RecordLaws.WrittenNumbers | file/w3g/records.go:280-292 | where the numbers of PlayerLeft and EndTimer records are written |
| RecordLaws.ChatIsStorableIff | file/w3g/records.go:39-44 | chat can be stored if and only if the version is 0 or at least 3 |
| Records.Cut | file/w3g/serialization.go:133-145 | a window of at least four bytes that ends inside a record yields ErrShortBuffer |
| Records.CutPanicsIff | file/w3g/records.go:605-623 | of all fronts of a record exactly the three-byte front of a chat message makes the decoder panic |
| Records.DecodePanicsIff | file/w3g/serialization.go:63-89 | Deserialize panics if and only if the last action of a time slot overruns the buffer, the buffer is three bytes of a chat message, or the decoder of another type panics |
| Records.ShortActionPanics | file/w3g/records.go:527-545 | a time slot of eight bytes on which it does |
| Records.DecodeConsumes | file/w3g/serialization.go:63-89 | for every byte string what a decoder leaves is a proper end of what it was given |
| RecordReader.TryRecord | file/w3g/serialization.go:105-150 | doubling the window reads a record back, whatever follows it, if and only if the reader can show it whole; a longer one fails with ErrBufferFull |
| RecordReader.StreamRoundTrip | file/w3g/serialization.go:105-150 | a reader that can show 1024 bytes reads records with any zero padding around them back in order, and then EOF |
| RecordReader.StreamReadsIff | file/w3g/decompress.go:191-209 | a padded list of records is read to EOF if and only if the reader can show 1024 bytes and each record fits it; otherwise the reading ends in ErrBufferFull |
| RecordReader.SmallReaderNeverEnds | file/w3g/serialization.go:105-113 | a reader that shows fewer than 1024 bytes never reads any stream to EOF; the empty stream ends in ErrBufferFull |
| RecordReader.DeserializeSlot | file/w3g/records.go:509-551 | decodes what the bytes say, or panics where they say so |
| RecordReader.ReadText | file/w3g/records.go:635-658 | the loop over extra strings decodes what the bytes say |
| RecordReader.DeserializeChat | file/w3g/records.go:605-667 | decodes what the bytes say, and panics on three bytes |
| RecordReader.DeserializeAck | file/w3g/records.go:696-711 | decodes what the bytes say |
| RecordReader.DeserializePlayerLeft | file/w3g/records.go:294-316 | decodes what the bytes say |
| RecordReader.DeserializeEndTimer | file/w3g/records.go:772-784 | decodes what the bytes say |
| RecordReader.DeserializeStart | file/w3g/records.go:413-426 | decodes what the bytes say |
| RecordReader.RecordDecoder.Deserialize | file/w3g/serialization.go:63-89 | the version-dependent choice of type decodes what the bytes say and counts the bytes taken |
| RecordReader.RecordDecoder.SkipPadding | file/w3g/serialization.go:115-131 | discards zero bytes only, and at least one |
| RecordReader.RecordDecoder.Read | file/w3g/serialization.go:105-150 | ends on every stream with the result, the panic or the error of the value model, which at the end of the stream is that of the peek |
| RecordReader.RecordDecoder.ForEach | file/w3g/decompress.go:191-209 | passes on, in order, the records of the value model up to EOF, the first error or a panic |
| RecordWriter.SerializeSlot | file/w3g/records.go:483-506 | writes the record's bytes, the size filled in afterwards |
| RecordWriter.SerializeChat | file/w3g/records.go:576-602 | writes the record's bytes, with the size worked out beforehand |
| RecordWriter.Serialize | file/w3g/serialization.go:29-35 | every record is written as the bytes that the reader decodes |
| Blocks.HeadRead | file/w3g/decompress.go:72-126 | the header of any block is read back as its checksums and, modulo the width of the fields, its sizes, for both layouts; as its sizes if and only if they fit |
| Layouts.BlockLayout | file/w3g/compress.go:46-88 | where sizes and checksums of a block are: twelve bytes of header from version 10032 on and for version 0, eight before |
| Decompress.NextOfAny | file/w3g/decompress.go:72-126 | what the reader makes of any block: it takes the compressed bytes that the header speaks of; these are the block, and the file goes on behind it, if and only if both sizes fit |
| Decompress.CutBlockFails | file/w3g/decompress.go:128-139 | a block that was cut by its size field is not finished without an error unless the checksums happen to be the same |
| Decompress.StepPanicsIff | file/w3g/decompress.go:154-161 | on any file a turn panics if and only if no zlib reader exists and SizeBlock is not zero; a reader once made is kept |
| Decompress.ReadPanicsIff | file/w3g/decompress.go:142-188 | a Read into a non-empty slice with data to come panics if and only if its first turn does |
| Decompress.SecondReadPanicsIff | file/w3g/decompress.go:93-121 | two Reads of a fresh reader: the second panics if and only if the first block's header has a wrong checksum or zlib refuses the block |
| Decompress.WrongChecksumPanics | file/w3g/decompress.go:104-110 | such a file, for every codec: the first Read answers ErrInvalidChecksum and the second panics |
| Decompress.StepProgress | file/w3g/decompress.go:142-188 | on any file every turn of the loop that goes on has delivered a byte or used up a block |
| Decompress.NextHolds | file/w3g/decompress.go:72-126 | the next block of a sound file is opened without an error |
| Decompress.DeliverHolds | file/w3g/decompress.go:142-188 | from a sound block exactly the next bytes are delivered and no counter wraps |
| Decompress.ExactEndIff | file/w3g/decompress.go:128-139 | a read that stops at the very end of an otherwise sound block succeeds if and only if zlib has read all its input by then |
| Decompress.LazyBlockSticks | file/w3g/decompress.go:128-139 | if zlib has not, every later Read gets nothing, answers ErrUnexpectedEOF and changes nothing |
| Decompress.LongSliceIgnoresTotal | file/w3g/decompress.go:142-152 | a slice of 2^32 bytes or more whose length as a uint32 does not exceed the total is not cut: Read fills in all there is, and keeps to the total only if there is no padding |
| Decompress.StepHolds | file/w3g/decompress.go:142-188 | a turn on a sound file delivers the next bytes of the stream, or EOF at its end |
| Decompress.Decompressor.CloseBlock | file/w3g/decompress.go:128-139 | fails if and only if declared data or unread compressed bytes are left over or the checksum differs |
| Decompress.Decompressor.NextBlock | file/w3g/decompress.go:72-126 | refines the value model on any file: damaged headers, cut files and blocks that zlib refuses included |
| Decompress.Decompressor.ReadTurn | file/w3g/decompress.go:154-185 | refines one turn of the value model on any file: the missing zlib reader, the end of zlib's data and its errors included |
| Decompress.Decompressor.Read | file/w3g/decompress.go:142-188 | on any file the turns of the value model, which end; on a sound one it returns the next bytes of the concatenated blocks, limited by the length asked for and the declared total, and keeps the rest to come |
| Decompress.Decompressor.ReadEach | file/w3g/decompress.go:142-188 | for every sequence of read lengths the bytes returned are, in order, the front of the first SizeTotal bytes |
| Compress.PackedData | file/w3g/compress.go:43-102 | the blocks of one write hold its bytes in order |
| Compress.PackedCount | file/w3g/compress.go:43-102 | how many blocks one write becomes: one from version 10032 on and for version 0, before that one for every 65535 bytes begun |
| Compress.WriteBlock | file/w3g/compress.go:46-88 | a block is written as the header and compressed bytes that the reader expects |
| Compress.BlockCompressor.Write | file/w3g/compress.go:43-102 | every byte is written, in order, and counted modulo 2^32 |
| Replays.Compressor.Flush | file/w3g/compress.go:155-162 | moves the buffered bytes to the file, in order |
| Replays.Compressor.Write | file/w3g/compress.go:131-133 | through a buffer of any size the bytes go out in order and none is lost, in the chunks of the value model |
| Replays.Compressor.Close | file/w3g/compress.go:155-162 | after any writes and closes SizeTotal is the number of the caller's bytes modulo 2^32, without the padding; the last chunk is filled up |
| Replays.BlocksWithin | file/w3g/compress.go:111-162 | the blocks that any writes become are packed from no more bytes than the buffer or the longest write has |
| Replays.BlocksAreFull | file/w3g/compress.go:111-162 | if no write is longer than the buffer, every block holds exactly one buffer, the last one by its padding |
| Replays.GoodWithin | file/w3g/compress.go:43-102 | a codec that is sound on data of at most that length makes only good blocks |
| Replays.WrittenHolds | file/w3g/compress.go:43-102 | a written file is a sound one for a fresh reader if and only if its blocks are good |
| Replays.WriteThenRead | file/w3g/decompress.go:142-188 | end to end: if the blocks that the writes become are good, what reads of any lengths return is the front of what writes of any sizes through a buffer of any size wrote, and all of it if enough is asked for |
| ReplayFile.SerializeAll | file/w3g/compress.go:141-152 | the records' bytes, one write each |
| ReplayFile.SaveAndLoad | file/w3g/decompress.go:191-209 | end to end: records that fit the reader's buffer and become good blocks, saved and loaded, come back in order up to the fields the format does not store |

## Left out

- PeerDial.LowerDialWins: needs that the lower host has one dial in flight at a time; `PeerDial.OverlappingDialLoses` shows that nothing less will do.
- PeerDial: the two hosts are a state machine over locked sections and not two objects; timeouts, deregistration and more than two hosts are not modelled.
- ReadLock and EventPool are state machines over atomic steps and not objects, because their properties are about interleavings.
- GameHost.Game.Ack: the handler runs as one step; the interleavings of its two locks are only shown in `LockStep.SplitAckOverdrains` and `LockStep.SplitAckPanics`.
- LockStep.RunKeepsInv: needs fresh joins, without which it fails (`LockStep.PendingJoinPanics`), and says nothing about progress after stragglers have been dropped; `LockStep.LiveIff` says when there is none.
- LockStep.ComparesAllItCan: needs that no straggler acks ahead of the game and that no drop leaves others; `LockStep.TightIff` shows what each of these does.
- Compress.BlockCompressor.Write: write errors of the underlying file are not modelled.
- Decompress.Decompressor.Read: the counter `SizeRead` is not modelled, and a block is taken from the file at once; how much of it zlib has read, and how zlib ends, are parameters.
- Replays.WriteThenRead: says nothing about blocks that are not good, save what `Decompress.NextOfAny`, `CutBlockFails` and `LazyBlockSticks` say of one of them, and needs fewer than 2^32 bytes.
- RecordReader.SmallReaderNeverEnds: needs that no decoder of the record types left out answers EOF.
- Records: GameInfo, PlayerInfo, SlotInfo, Desync and PlayerExtra records are represented by any decoder that takes some bytes or refuses; their codecs in replays are not modelled.
- Framing: `Decoder.Deserialize` is a parameter of the stream results; of the packet types only TimeSlot is put through it.
- The caching factory itself: the results about reuse are for every old content a struct can have.
- Changes of race, handicap and download status in a lobby: they touch no field that the invariants speak of.
- Lag screens, start-up stages and timers of the game: they would add only easy members.
- Sockets, deadlines and goroutine scheduling; LAN discovery; Battle.net and chat clients; MPQ, BLP and map files; command-line tools.
