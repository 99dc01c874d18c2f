# Verified model of the remote desktop client's stateful core

This project models, in Dafny, the parts of the remote desktop program whose behaviour
cannot be read off one function: a codec that must survive its own separators, a jitter
buffer with a histogram, a clipboard protocol between two machines, the state machines of
a client session, and the arithmetic of timers, lists and hashes. Everything is a statement
about all inputs, all runs or all interleavings; `dafny verify dfyconfig.toml` checks it.

## How the model is laid out

**File names that carry a server configuration.** `Utf8`, `Bits`, `Base64Url`, `Json` and
`Text` model the layers concretely: UTF-8, bit streams, the URL-safe alphabet of section 5
of RFC 4648 without padding and with a strict reader, the JSON that is written for four
string fields with the escapes of section 7 of RFC 8259, and the string operations of the
standard library. `CustomServerName` is the printer and the parser, once as functions and
once as loops; `FileNames` and `HostTokens` prove the two round trips. `CutNames` settles
which names read back at all, from what `Base64Pieces` proves of the pieces of an encoding and
`JsonParts` of the parts of a printed text; `NonAsciiName` is a name that does not.

**Audio.** `AudioRing` is a ring buffer on an array, `JitterBuffer` the histogram scan and the
shrink on top of it, as a class and as functions on a value; `JitterRuns` reasons over runs of
appends, callbacks and changes of the sample rate. Samples are opaque, the clock is an input.

**Clipboard.** `ClipboardCodec` is the wire format, `ClipboardSync` the two-machine protocol
with notifications and deliveries as atomic steps (deliveries in any order, writes that may
fail), `ClipboardListener` the registry of subscribers.

**Session.** `SessionOptions` compares single option messages with the full one sent at login.
`LoginPassword` follows a password and its recorded source. `VideoDecoder` counts decoding
failures and keeps the list of unsupported formats that the display threads share.

**Timing, lists, hashes.** `UdpPunch`, `Throttle`, `ServerList`, `Color`.

Objects that the source updates in place are classes here. Each of their methods is proved
equal to a step function on a value, and the runs of those functions are what the lemmas
are about. Two history fields of `LoginPassword.Login` (`fromShared`, `leaked`) record what the
program does not.

## What the proofs found

- A payload is safe inside a file name because in the base64 of 7-bit data `-` stands only
  at indices 3, 7, 11, .... Outside ASCII that fails, and the exact condition is that the payload
  holds no two dashes in a row (`CutNames.ShippedNameExact`): then the shipped name gives its
  configuration back, and otherwise no piece does, unless something that reads as it is signed. With a server key of `a3` and
  a full-width exclamation mark the parser refuses the name (`NonAsciiName.NonAsciiNameRefused`).
  No payload holds the marker `-licensed-`.
- What a user copies reaches the other machine's clipboard as it is, beside empty texts and kinds without a wire form,
  exactly when all of it fits the wire format.
- A peer that holds the text a password was made from accepts the answer to its hash message, and
  a typed password is answered under the latest salt and challenge.
- The readable form of a name gives its fields back if and only if none of them has a comma.
- A special clipboard item is sent with its *name* as content when compression does not
  help (src/clipboard.rs:604-620), so it survives exactly when compression shrinks its data or
  the data are the name's bytes. Image sizes pass through 32-bit signed fields.
- A toggle sent on its own keeps the peer in step exactly when it is harmless: while
  view-only is on, switching the remote cursor off, for one, is not.
- For ids with the `nostr-webrtc://` prefix a configuration is stored under one name and
  loaded by another (src/client.rs:1969-1994), so a toggle is forgotten.
- A shared password is never newly stored or published as long as no switch of sides starts
  from one and the salt stays. An unsafe hash message followed by a successful login leaks it
  exactly when the session remembers passwords.
- A clipboard listener thread that ends by itself leaves its handle behind, so nobody is served
  again before the last subscriber has left (src/clipboard.rs:866-872).
- A frame without a payload has the format "unknown", so it replaces the decoder by one
  that cannot be made and gets that format onto the unsupported list.
- UDP punching sends at most 104 packets in every run, although the time-out and the
  interval read the clock separately: each packet comes after a sleep of its interval. The
  bound is reached.
- A buffer that stays in one tenth of a second, 600 ms or more, loses a quarter of that at a tick.
- A drop from the audio buffer is bounded by every occupancy since the last tick at the
  sample rate that occupancy was measured at, so that changes of the rate do no harm.
- A first server that is a bare IPv6 address is not recognised in the list with ports, so the
  last server is chosen instead. An empty list passes through the text form as one empty name.
- The comment at src/common.rs:2319 says that the colours agree with the interface. The
  service hashes UTF-8 bytes and the interface UTF-16 units (flutter/lib/common.dart:1355-1363);
  they agree on ASCII text and differ on every other single character.

## Model

| member | source | states |
|---|---|---|
| Utf8.DecodeEncode | src/custom_server.rs:29-31 | reading the UTF-8 bytes of any Unicode text gives the text back |
| Utf8.EncodeDecode | src/custom_server.rs:29-31 | the strict reader accepts nothing but what the writer produces |
| Base64Url.DecodeEncode | src/custom_server.rs:28-28 | the unpadded URL-safe decoding undoes the encoding on every byte string |
| Base64Url.EncodeDecode | src/custom_server.rs:28-28 | whatever decodes is the encoding of what it decodes to, so no two texts share a meaning |
| Base64Url.AlphabetInOrder | src/custom_server.rs:28-28 | the letters stand for their values in the order of the URL-safe table |
| Base64Url.ForeignCharFails | src/custom_server.rs:28-28 | a character outside the alphabet makes decoding fail |
| Base64Url.OneLeftOverFails | src/custom_server.rs:28-28 | a text of length 1 modulo 4 never decodes |
| Base64Url.DashOnlyAtThreeModFour | src/custom_server.rs:89-93 | in the encoding of 7-bit data `-` stands only at indices 3 modulo 4 |
| Base64Url.FirstLetterNoDash | src/naming.rs:6-7 | the encoding of data that starts with a 7-bit byte does not start with `-` |
| Base64Url.LastLetterAfterBrace | src/naming.rs:6-7 | the encoding of data that ends in a closing brace does not end in `-` |
| Base64Url.TwoDashes | src/custom_server.rs:93-93 | the bytes 33 EF BC 81 from offset 9 on give two dashes in a row at index 13, then `8g` |
| Base64Url.LeadWithoutTail | src/custom_server.rs:28-31 | bytes whose encoding starts with `8g` start with a UTF-8 lead byte that no continuation byte follows |
| Json.ReadPrint | src/naming.rs:6-6 | the printed object reads back as the same four fields, for any characters in them |
| Json.ReadPrintArray | src/custom_server.rs:29-31 | the array of the four fields in order reads as the same configuration |
| Json.PrintPlain | src/naming.rs:6-6 | without characters to escape the printed text is the members key, host, api and relay in this order, with nothing between but commas |
| Json.PrintShape | libs/serde_json/src/ser.rs:2051-2127 | the printed text begins with an opening and ends with a closing brace |
| Json.PrintAscii | libs/serde_json/src/ser.rs:2051-2127 | ASCII fields print as ASCII text |
| Text.SplitJoin | src/ipc.rs:1247-1249 | splitting undoes joining when no piece contains the separator |
| Text.JoinSplit | src/ipc.rs:639-644 | joining the pieces of a split gives the text back |
| Text.PiecesLackPattern | src/custom_server.rs:93-93 | no piece of a split contains the separator |
| Text.ReplaceAfter | src/custom_server.rs:89-92 | a replacement leaves everything before the first occurrence alone |
| Text.PiecePlace | src/custom_server.rs:93-93 | every piece of a split runs from the start or a separator to a separator or the end |
| Text.LowerSpells | src/custom_server.rs:66-79 | a text starts with a lower-case name after lowering exactly if it spells that name in any letter case |
| CustomServerName.ReadTokens | src/custom_server.rs:61-87 | one pass over the tokens finds, for each field, what follows its name in the last token that spells it in any letter case, and leaves a field without such a token empty |
| CustomServerName.TokensRead | src/custom_server.rs:61-87 | the same of the tokens as a function: a later token overrides an earlier one, whatever the letter case |
| CustomServerName.GetCustomServerFromString | src/custom_server.rs:39-108 | the loops with early return find the fields after `host=` in any letter case, else the first text that reads, in the order of the pieces and behind each piece of its parts between parentheses |
| CustomServerName.FirstPieceIsFirst | src/custom_server.rs:93-105 | for any pieces and any reader: no text is left out and none is tried before its turn |
| FileNames.AsciiDashes | src/custom_server.rs:89-93 | in the reversed payload of an ASCII configuration dashes are four apart |
| FileNames.PayloadEnds | src/naming.rs:5-8 | the payload neither starts nor ends with a dash |
| FileNames.AsciiPayloadShielded | src/custom_server.rs:89-93 | no separator and no marker starts inside the payload of an ASCII configuration |
| FileNames.UnmarkPayload | src/custom_server.rs:89-92 | the three chained replacements turn any of the three markers into two dashes and touch neither program name nor payload |
| FileNames.SplitPayload | src/custom_server.rs:93-93 | the first two pieces are the program name and the payload with its suffix |
| FileNames.PieceAccepted | src/custom_server.rs:94-105 | a piece with or without a duplicate suffix yields the configuration of its payload |
| FileNames.PayloadAccepted | src/custom_server.rs:21-37 | a payload on its own reads as the configuration it was made from, whatever the signature check says |
| FileNames.NameRoundTrip | src/custom_server.rs:39-108 | any shielded payload behind any program name without a payload, any of the three markers or `--`, with duplicate suffix, further `--` text and extension, parses to its configuration unless the name holds `host=` |
| FileNames.SignedNameRoundTrip | src/custom_server.rs:21-37 | the same for a payload that is no configuration but signed data: its name gives the configuration that was signed |
| FileNames.LicensedNameRoundTrip | src/custom_server.rs:88-105 | for every ASCII configuration `anuvadini-licensed-` + payload + any ` (n)` suffixes + `.exe` parses to it |
| CutNames.UnmarkAny | src/custom_server.rs:89-92 | the replacements work on the name's own marker and, apart from it, on any payload |
| CutNames.AnyPayload | src/custom_server.rs:88-107 | whatever the payload, the parser reads the pieces that the replacements leave of it |
| Utf8.LeadHasTail | src/custom_server.rs:29-31 | in the bytes of a text a lead byte is followed by a continuation byte |
| Utf8.NoFourTails | src/custom_server.rs:29-31 | and no four continuation bytes stand in a row |
| Utf8.SuffixOfText | src/custom_server.rs:29-31 | a suffix of the bytes of a text that is a text itself is the rest of it from some character on |
| Base64Pieces.PieceBits | src/custom_server.rs:28-28 | the bits of a piece of an encoding are those of the data from its start on |
| Base64Pieces.PiecePlace | src/custom_server.rs:93-93 | pieces between pairs of dashes start at a group of four or three letters into one, and end one or two letters into one |
| Base64Pieces.BoundaryPiece | src/custom_server.rs:28-28 | the reader refuses a piece from a group on that is not the last |
| Base64Pieces.LastAlignedPiece | src/custom_server.rs:28-28 | the last piece from a group on decodes to the data from behind a byte that is not 7-bit |
| Base64Pieces.LastShiftedPiece | src/custom_server.rs:28-31 | the last piece from within a group is no text when the data end in a closing brace |
| Base64Pieces.MiddlePiece | src/custom_server.rs:28-28 | a piece in the middle decodes to the data shifted by two bits between two bytes that are not 7-bit |
| Base64Pieces.NoMarker | src/custom_server.rs:89-92 | nowhere in the encoding of a text stands the marker reversed |
| JsonParts.ReadSize | src/custom_server.rs:29-31 | a text that reads as a configuration, as an object or an array, is at least as long as each of its printed fields |
| JsonParts.PrintRestsFail | src/custom_server.rs:29-31 | what follows a character outside ASCII in a printed configuration does not read as anything |
| JsonParts.PrintNear | libs/serde_json/src/ser.rs:2051-2127 | two bytes of a printed configuration that are not 7-bit are in one field or have a separator between them that is no text when shifted |
| CutNames.PieceRefused | src/custom_server.rs:93-105 | no piece of a printed configuration's encoding between pairs of dashes, but the whole, decodes to a text that reads as it |
| CutNames.CopyNotRead | src/custom_server.rs:97-104 | duplicate suffixes do not make a piece read as what it does not read as without |
| CutNames.UncutIsShielded | src/custom_server.rs:89-93 | a payload is shielded exactly if it holds no two dashes in a row |
| CutNames.NoMarkerInName | src/custom_server.rs:89-92 | no payload holds a marker, nor makes one with a duplicate suffix |
| CutNames.ShippedNameExact | src/custom_server.rs:88-107 | for every configuration, ASCII or not, and any ` (n)` suffixes the shipped name parses to it if and only if its payload holds no two dashes in a row, unless something that reads as it is signed |
| NonAsciiName.NonAsciiNameRefused | src/custom_server.rs:88-107 | for a concrete key outside ASCII, any ASCII in the other fields and no signature the parser refuses the shipped name |
| HostTokens.HostNameRoundTrip | src/custom_server.rs:47-87 | fields printed after their names in any letter case, from the first `host=` on and with a final comma, parse back, whatever duplicate suffix follows, if and only if none has a comma |
| AudioRing.Ring.Skip | libs/ringbuf/src/traits/consumer.rs:227-237 | drops up to a number of samples from the front and nothing else |
| AudioRing.Ring.PushSliceOverwrite | libs/ringbuf/src/traits/ring_buffer.rs:48-60 | the ring holds the newest samples of old content and new ones, up to its capacity |
| AudioRing.Ring.PopSlice | libs/ringbuf/src/traits/consumer.rs:171-185 | takes samples from the front in order |
| AudioRing.OverwriteKeepsNewest | libs/ringbuf/src/traits/ring_buffer.rs:48-60 | making room first and then pushing what fits is the same as appending and keeping the newest |
| JitterBuffer.Bin | src/client.rs:1309-1313 | the bin index is in range, and is the tenth of a second the occupancy lies in, the last bin taking the rest |
| JitterBuffer.ModeUnique | src/client.rs:1332-1344 | the definition of the first fullest bin among 1 to 29, or 0 for none, determines it |
| JitterBuffer.AudioBuffer.constructor | src/client.rs:1281-1291 | an empty buffer for two channels of 48 kHz with an empty histogram |
| JitterBuffer.AudioBuffer.Resize | src/client.rs:1295-1303 | the capacity is three times the samples per second; an unchanged rate changes nothing, a changed one empties the buffer and keeps the histogram |
| JitterBuffer.AudioBuffer.AppendPcm2 | src/client.rs:1370-1384 | append and keep the newest `cap` samples; the result is the new length |
| JitterBuffer.AudioBuffer.Callback | src/client.rs:1565-1606 | plays the oldest samples, as many as wanted or there |
| JitterBuffer.AudioBuffer.ScanAndClear | src/client.rs:1328-1350 | for every histogram the one in-place loop finds the length of the leading run of empty bins and the first fullest bin, and leaves all bins empty |
| JitterBuffer.AppendTo | src/client.rs:1370-1384 | both branches keep the newest samples of the ring and the new ones |
| JitterBuffer.DropFrom | src/client.rs:1344-1364 | drops from the front exactly the even amount at the smaller water mark's share of the capacity, if more than three times as much is buffered; nothing below 600 ms |
| JitterBuffer.DropMeaning | src/client.rs:1345-1364 | for any capacity, water marks and occupancy: the exact amount, determined from both sides |
| JitterBuffer.AudioBuffer.TryShrink | src/client.rs:1305-1365 | records the occupancy, and every twelve seconds clears the histogram and drops what it calls for |
| JitterRuns.Conservation | src/client.rs:1370-1384 | over every run appended = played + dropped + buffered, the buffer is the newest input, and played then buffered samples are an in-order subsequence of the input |
| JitterRuns.RunCounted | src/client.rs:1309-1313 | in every run the histogram counts exactly the occupancies reported since the last tick, each in the bin of its own rate |
| JitterRuns.HistogramDropIsSafe | src/client.rs:1345-1364 | for every window of occupancies at any rates the drop is even, under a third of the buffer, in seconds at most two thirds of any occupancy plus one sample, and nothing if one was under 100 ms |
| JitterRuns.ShrinkIsSafe | src/client.rs:1305-1365 | the same bounds hold for the append that follows any run, and the samples go from the front |
| JitterRuns.ShrinkIsExact | src/client.rs:1305-1365 | the append that follows any run drops that exact amount from the front when twelve seconds have passed since the last tick, and nothing otherwise |
| JitterRuns.SteadyBufferShrinks | src/client.rs:1345-1364 | after any run, when all occupancies since the last tick lie in one tenth of a second of at least 600 ms, the tick drops a quarter of that time, to one sample, if three times as much is buffered |
| JitterRuns.SteadyBufferGetsShorter | src/client.rs:1360-1364 | with that time still buffered, at more than twenty samples a second, the buffer does get shorter |
| JitterRuns.NoTickMissed | src/client.rs:1315-1326 | in every run the latest tick was at an append, and no append since came twelve seconds after it |
| JitterRuns.RateIsLatest | src/client.rs:1295-1303 | in every run the buffer is for the latest rate and holds three seconds of it at most |
| JitterRuns.QuotaBound | src/client.rs:1345-1361 | the quota is even and, in seconds, at most two thirds of any occupancy not below the leading run, plus one sample |
| JitterRuns.DropNeedsFullBuffer | src/client.rs:1346-1354 | a drop takes a window whose most frequent occupancy was at least 600 ms |
| JitterRuns.RunAligned | src/client.rs:1360-1361 | with even counts from the device every reachable buffer has an even length |
| JitterRuns.ChannelsStayAligned | src/client.rs:1360-1361 | in every reachable state of a two-channel device the first buffered sample is a left one |
| ClipboardCodec.ItemRoundTrip | src/clipboard.rs:544-672 | one item comes back unchanged exactly when it fits the wire format |
| ClipboardCodec.WireForm | src/clipboard.rs:544-620 | an item is compressed exactly if that makes it shorter, PNG never; only raw images carry sizes and only special items a name |
| ClipboardCodec.ListRoundTrip | src/clipboard.rs:622-680 | a list comes back with exactly the unsupported kinds removed, in order, if and only if every item fits |
| ClipboardCodec.SizesThatFit | src/clipboard.rs:574-575 | the image sizes that survive both casts are those below 2^31 and the last 2^31 of the 64-bit range |
| ClipboardCodec.SpecialDelivered | src/clipboard.rs:604-620 | a special item always arrives under its name, with its data or with the name as data |
| ClipboardCodec.SpecialLost | src/clipboard.rs:604-620 | a compressor that never helps delivers a special item intact only if its data are its name |
| ClipboardSync.OnlyLocalCopiesTravel | src/clipboard.rs:328-357 | in every run, each message sent without force forwards exactly what a user of the sending machine copied there, and no message holds the marker or an empty text |
| ClipboardSync.StepSafe | src/clipboard.rs:52-76 | every step keeps the invariant behind it: unmarked content is the last copy of the machine's own user |
| ClipboardSync.CopyArrives | src/clipboard.rs:52-76 | end to end: after a user's copy, a required notification and the delivery of its message at any later time, the peer's clipboard holds what of the copy can travel, in order, and one marker, if and only if all of it fits the wire format |
| ClipboardSync.NotifyMeaning | src/clipboard.rs:52-76 | the whole effect of a notification: unmarked content worth sending is cached and, if required, sent, to an old peer its first text only; anything else changes nothing |
| ClipboardSync.DeliverMeaning | src/clipboard.rs:199-232 | the whole effect of a delivery: the message leaves the inbox, and its items with one marker replace the clipboard exactly if it is accepted, written and not empty |
| ClipboardSync.NewConnectionMeaning | src/clipboard.rs:470-500 | a new connection gets the cached message, else the content of the clipboard whoever it came from |
| ClipboardSync.ReceivedIsOwned | src/clipboard.rs:208-232 | what is put on a clipboard for a message is marked, so it is not forwarded again |
| ClipboardSync.InternalLowers | src/clipboard.rs:339-347 | a notification or delivery strictly lowers the activity of the two machines |
| ClipboardSync.GoesQuiet | src/clipboard.rs:52-76 | without further copies or connections no run is longer than the activity it starts with |
| ClipboardSync.QuietMeansDone | src/clipboard.rs:52-76 | no activity means no notification and no message in flight |
| ClipboardSync.Clipboard.FindOwnerMarker | src/clipboard.rs:339-347 | finds whether any item is the marker of either side, one of the two low bits of its first byte |
| ClipboardSync.Clipboard.CheckClipboard | src/clipboard.rs:52-76 | returns and caches the message for the filtered content, or leaves the cache alone |
| ClipboardSync.Clipboard.UpdateClipboard | src/clipboard.rs:199-232 | writes all decoded items and behind them one marker of this side, or nothing when nothing decodes |
| ClipboardSync.Clipboard.CurrentMessage | src/clipboard.rs:470-500 | the cached message, else the content whoever owns it; the first text for an old peer |
| ClipboardListener.AlwaysInStepMeaning | src/clipboard.rs:802-855 | there is a handle exactly while there are subscribers, at every moment of a run, if and only if no subscription failed |
| ClipboardListener.AlwaysServedMeaning | src/clipboard.rs:802-886 | there is a running thread exactly while there are subscribers, at every moment of a run, if and only if no subscription failed and the thread never ended by itself |
| ClipboardListener.EndedIsNotReplaced | src/clipboard.rs:811-831 | a thread that ended by itself is not replaced before the registry has been empty, and nobody hears of anything |
| ClipboardListener.NoIdleListener | src/clipboard.rs:836-855 | in every run the thread never outlives its handle, nor the handle the last subscriber |
| ClipboardListener.RegisteredMeaning | src/clipboard.rs:802-855 | a name is registered exactly if its own latest event is a subscription, with the sending end of that one |
| ClipboardListener.ChangeReaches | src/clipboard.rs:773-794 | in a run where nothing failed or ended by itself a change, or an error as such, reaches exactly those whose latest event is a subscription, through the sending end of that; a stop reaches the one who leaves |
| ClipboardListener.NextSubscriptionRepairs | src/clipboard.rs:802-834 | a failed subscriber stays registered and is served from the next subscription that starts a listener |
| ClipboardListener.Listener.SubscribeTo | src/clipboard.rs:802-834 | the new registry and whether the call failed; a handle that is there is kept |
| ClipboardListener.Listener.UnsubscribeFrom | src/clipboard.rs:836-855 | the new registry, who is told to stop, and that the handle goes with the last subscriber |
| SessionOptions.ToggleKeepsStep | src/client.rs:2135-2280 | one toggle keeps a peer equal to what the full message would make of it exactly when it is harmless |
| SessionOptions.SessionStaysInStep | src/client.rs:2135-2280 | over a whole session the peer is in step after every toggle if and only if every toggle was harmless where it happened |
| SessionOptions.CarefulSession | src/client.rs:2337-2364 | from view-only off with the own cursor hidden, sessions that leave overridden settings alone are always in step |
| SessionOptions.ToggleTwice | src/client.rs:2135-2280 | for a plain id toggling a flag twice restores the configuration, except exactly that view-only switches an own cursor off |
| SessionOptions.FlagToggle | src/client.rs:2138-2272 | a flag's toggle negates its own answer and no other, except that view-only going off takes the own cursor along; it is stored, and the message says in its field what it is now |
| SessionOptions.FreeToggle | src/client.rs:2252-2265 | an option without a flag negates its own answer, leaves every other option and flag alone, is stored, and no message is sent |
| SessionOptions.FreeToggleTwice | src/client.rs:2252-2265 | toggling such an option twice restores it exactly if it was unset or `Y` |
| SessionOptions.PrivacyToggle | src/client.rs:2194-2201 | privacy mode is asked for as the opposite of what is configured, and the configuration stays |
| SessionOptions.TerminalStaysInStep | src/client.rs:2303-2310 | over any session of toggles the peer of a terminal knows whether it is to persist as a login message would tell it |
| SessionOptions.PlainIdReloads | src/client.rs:1969-1994 | for a plain id what a toggle stored is what is loaded next |
| SessionOptions.NostrIdElsewhere | src/client.rs:1969-1994 | an id with the `nostr-webrtc://` prefix is loaded under another name than it is stored under |
| SessionOptions.NostrToggleForgets | src/client.rs:1969-1994 | for such an id the second toggle of any flag that is stored starts from the old value again |
| SessionOptions.LoginConfigHandler.ToggleOption | src/client.rs:2135-2280 | the new configuration, store and message of every option name |
| SessionOptions.LoginLimits | src/client.rs:2310-2336 | the message names a quality or gives a custom one, never both, and keeps the limits of a public server unless the connection is direct |
| SessionOptions.LoginByConnection | src/client.rs:2295-2310 | who gets a message at login, and that a terminal's holds its one setting only |
| SessionOptions.LoginToggles | src/client.rs:2337-2364 | which toggles the message reports, by their names and by what view-only overrides |
| SessionOptions.LoginQuality | src/client.rs:2311-2325 | the quality the configured text stands for, by name or number, within the limits of a public server |
| SessionOptions.LoginFrameRate | src/client.rs:2327-2334 | the frame rate its decimal text stands for, or 30 for what is no number |
| SessionOptions.ParseDecimal | src/client.rs:2329-2329 | decimal text with or without a sign reads as its number exactly if that has 32 bits |
| SessionOptions.ParseNeedsDigits | src/client.rs:2329-2329 | what reads as a number is digits behind at most one sign |
| SessionOptions.LoginConfigHandler.GetOptionMessage | src/client.rs:2295-2366 | the full message by connection type: toggles exactly as view-only and their flags want them, image quality, frame rate and decodings |
| LoginPassword.PickCases | src/client.rs:3507-3557 | the password taken is the first one there is in the order of precedence, or none |
| LoginPassword.HashIsAnswered | src/client.rs:3488-3594 | after any session a hash message is answered with the first password there is: a peer that holds the text it was made from under this salt accepts; without a password the answer is empty |
| LoginPassword.TypedIsAnswered | src/client.rs:3654-3687 | after any session a typed password, or else that of the session or the stored one, is answered under salt and challenge of the latest hash message, so that a peer that holds it accepts |
| LoginPassword.TypedThenWorked | src/client.rs:2608-2660 | a typed password that worked is stored and published if it is to be kept, and otherwise nothing stays stored |
| LoginPassword.StoredElsewhereIsUsed | src/client.rs:3533-3539 | a password that another part of the program stored is what the next hash message is answered with once the configuration was read again |
| LoginPassword.HashKeepsSound | src/client.rs:3488-3557 | a hash message leaves the recorded source right exactly when it carries no shared password into a switch or under another salt |
| LoginPassword.StepKeepsSound | src/client.rs:3434-3687 | every step leaves the recorded source right exactly when it is safe |
| LoginPassword.SessionStaysSound | src/client.rs:3434-3687 | over a whole session the source is right throughout if and only if every step was safe |
| LoginPassword.StepDoesNotLeak | src/client.rs:2608-2660 | from a state whose source is right no shared password is newly stored or published |
| LoginPassword.SessionDoesNotLeak | src/client.rs:2608-2660 | nor over any session of safe steps |
| LoginPassword.SharedPasswordsStayPut | src/client.rs:1750-1799 | with one salt: SharedAb(p) means the password is empty or made from p, PersonalAb(q) that it is empty or q, and nothing leaks |
| LoginPassword.ResumedSession | src/client.rs:1909-1917 | the same for a session resumed from a token, from its first hash message on |
| LoginPassword.UnsafeHashLeaks | src/client.rs:3498-3506 | a hash message and a successful login leak a shared password if and only if the message was unsafe and the session remembers |
| LoginPassword.PeerInfoMeaning | src/client.rs:2608-2660 | from a state whose source is right, what a successful login stores and publishes is decided by where the password came from: shared ones never, personal ones stored and not published, others as asked |
| LoginPassword.PersonalPasswordIsStored | src/client.rs:2608-2631 | a personal address-book password that worked is stored and not published |
| LoginPassword.PeerInfoSettles | src/client.rs:2608-2660 | only a remembered and stored password is published, and a second report changes nothing |
| LoginPassword.RefusedIsForgotten | src/client.rs:3439-3446 | after a refusal the next password comes from another source or is empty |
| LoginPassword.LoginConfigHandler.constructor | src/client.rs:1902-1917 | a fresh session, or one that takes password and source from a token |
| LoginPassword.LoginConfigHandler.HandleHash | src/client.rs:3488-3594 | the new state and the answer, with the branches in the order of the source equal to the first candidate |
| LoginPassword.LoginConfigHandler.HandleLoginFromUi | src/client.rs:3654-3687 | the new state and the answer for a typed or an empty password |
| LoginPassword.LoginConfigHandler.HandlePeerInfo | src/client.rs:2608-2660 | which password is left in the configuration and whether it is published |
| LoginPassword.LoginConfigHandler.HandleLoginError | src/client.rs:3434-3459 | an empty or wrong password is cleared, other errors leave it |
| VideoDecoder.CounterMeaning | src/client.rs:1670-1699 | after any history the counter is the trailing run of failures since the last reset or change of format, plus 2 if it goes back to the first frame, capped at the largest `usize` |
| VideoDecoder.ValidMeaning | src/client.rs:1664-1729 | after any history the decoder works exactly if the library could make it at the latest reset or change of format, and its format is known |
| VideoDecoder.CondemnedMeaning | src/client.rs:3009-3014 | a decoder is condemned exactly if the library could not make it, its format is unknown, all of its frames failed, or the latest three did |
| VideoDecoder.FailureRun | src/client.rs:1682-1698 | the trailing run holds failures only and is preceded by a success or nothing |
| VideoDecoder.Judge | src/client.rs:3016-3018 | the list grows by at most the decoder's format, stays free of duplicates, and holds it exactly if it was there or is condemned |
| VideoDecoder.RunKeeps | src/client.rs:3009-3027 | in every interleaving of the threads the list has no duplicates, each growth is answered by exactly one update, and once none is pending the last update held the whole list |
| VideoDecoder.MarkedMeaning | src/client.rs:3009-3020 | a format is listed exactly if it was at the start or a frame left its decoder condemned |
| VideoDecoder.BlankMarksUnknown | src/client.rs:3009-3020 | after any run, a frame without a payload puts the unknown format on the list |
| VideoDecoder.ThreadsAreIndependent | src/client.rs:2914-3033 | the decoder of a thread is what its own frames and resets make of it |
| VideoDecoder.VideoHandler.HandleFrame | src/client.rs:1664-1714 | the new decoder state after a frame, and whether there is a picture |
| VideoDecoder.VideoHandler.Reset | src/client.rs:1717-1729 | a new decoder with no failures, of the given or the old format |
| VideoDecoder.UnsupportedList.Check | src/client.rs:3009-3021 | the list after a look at a decoder, and whether an update is due |
| UdpPunch.BackoffGrows | src/common.rs:2264-2268 | the interval never shrinks, stays between 20 and 200 ms, and is at its cap exactly from the sixth retry on |
| UdpPunch.PacketsSpaced | src/common.rs:2251-2270 | in every run each packet comes at least its interval after the one before it |
| UdpPunch.RunKeepsPace | src/common.rs:2251-2270 | in every run the latest packet comes after the sum of all intervals so far, counted from the first packet and from the start of the loop |
| UdpPunch.PacketsBounded | src/common.rs:2237-2283 | at most 104 packets in every run, wherever the loop is held up |
| UdpPunch.BoundReached | src/common.rs:2237-2283 | a run whose sleeps last exactly their intervals sends 104 |
| UdpPunch.OutcomeMeaning | src/common.rs:2251-2283 | every run ends exactly with the first event that ends it, a late waking, a packet or an error, in the way of that event, and nothing is sent after it |
| UdpPunch.SentWhenDue | src/common.rs:2251-2270 | while it goes on, a packet is sent on waking exactly if the latest one is its interval old |
| UdpPunch.PunchUdp | src/common.rs:2237-2283 | the loop ends with the outcome and the packets of the run, at the first answer, error or time-out |
| Throttle.TicksAreSpaced | src/common.rs:1793-1808 | any two ticks let through are at least the minimum apart and belong to ticks of the inner timer |
| Throttle.NextTickMeaning | src/common.rs:1797-1798 | the next tick waits for the start and for the ticks let through, and for nothing else |
| Throttle.EmissionMeaning | src/common.rs:1797-1804 | a tick is let through exactly if it is not too close to one that was |
| Throttle.NothingDropped | src/common.rs:1793-1808 | all inner ticks are let through if and only if they are far enough apart themselves |
| Throttle.StaysAhead | src/common.rs:1793-1808 | no other well spaced choice of inner ticks is larger |
| Throttle.ThrottledInterval.constructor | src/common.rs:1779-1786 | the first tick is free and the minimum is nine tenths of the period, rounded down |
| Throttle.ThrottledInterval.PollTick | src/common.rs:1793-1808 | passes on the inner tick or holds it back and asks to be polled again |
| ServerList.CheckPortSettles | libs/hbb_common/src/socket_client.rs:16-28 | a name that was given its port is not changed again |
| ServerList.CheckPortForm | libs/hbb_common/src/socket_client.rs:16-28 | bare IPv6 addresses get brackets and port, names without a colon the port, others stay |
| ServerList.BareIsIpv6 | libs/hbb_common/src/lib.rs:404-412 | the model's test for a bare address accepts exactly what the first form of the regular expression matches |
| ServerList.BracketedMeaning | libs/hbb_common/src/lib.rs:404-412 | and the one for an address in brackets exactly the second form |
| ServerList.ReplyRoundTrip | src/ipc.rs:639-644 | reading the joined reply gives server and list back exactly if no name has a comma and the list is not empty |
| ServerList.EmptyReply | src/ipc.rs:1244-1249 | an empty list comes out as one empty name |
| ServerList.ChoiceMeaning | src/common.rs:705-712 | which server is chosen, when it counts as contained and when it is among the others |
| ServerList.GetRendezvousServer | src/common.rs:690-712 | the server named by the executable, else the preferred one, is chosen if it is listed or nothing is, else the last; no other server is lost, and the chosen one is among the others only as the last one of the list |
| ServerList.Without | src/common.rs:705-707 | every copy of the chosen server goes, all other servers stay |
| ServerList.NothingLost | src/common.rs:701-712 | chosen and remaining servers are the whole list with ports, other servers with all their copies |
| ServerList.NotAmongTheOthers | src/client.rs:471-471 | the client's assertion holds exactly if the preferred server is listed, the list is empty or the last server is listed once |
| ServerList.PortsAreSettled | src/common.rs:701-704 | every server of the choice has its port already |
| ServerList.PreferredIsListed | libs/hbb_common/src/config.rs:769-778 | the preferred server is found in the list exactly if the first server is no bare IPv6 address |
| ServerList.FirstServerIsChosen | src/common.rs:690-712 | from configuration through the reply to the choice: which server is chosen, when it counts as contained, and when the client's assertion holds |
| ServerList.NoServers | libs/hbb_common/src/config.rs:780-791 | without servers a remote and a local process choose the same name but differ in the flag |
| Color.TurnMeaning | src/common.rs:2326-2326 | at any width the wrapping shift, subtraction and addition multiply by 31 and add |
| Color.PolyConcat | src/common.rs:2324-2327 | the base-31 polynomial of a concatenation in terms of its parts |
| Color.HashCodes | src/common.rs:2323-2327 | the wrapping loop computes the base-31 polynomial modulo its width |
| Color.ClearBit15 | src/common.rs:2330-2330 | the mask clears bit 15 and nothing else |
| Color.ColorOf | src/common.rs:2329-2332 | the top byte of the 32-bit colour is the opacity |
| Color.ColorHasNoBit15 | src/common.rs:2329-2332 | bit 15 of every colour is clear |
| Color.Str2Color | src/common.rs:2320-2332 | for every text the 32-bit loop gives the polynomial of its bytes modulo 2^24 without bit 15, below the opacity |
| Color.Str2ColorInDart | flutter/lib/common.dart:1355-1363 | the same for code units and 64-bit integers |
| Color.UnitsOfChar | flutter/lib/common.dart:1355-1363 | a character is one code unit, or a pair of surrogates for it |
| Color.SameColor | src/common.rs:2319-2320 | on ASCII text service and interface agree |
| Color.OtherColor | src/common.rs:2319-2320 | on a single character they agree exactly if it is ASCII |

## Left out

- The signature check of a payload is a parameter; its cryptography is not part of this model.
- Json.Read: refuses an object whose unknown members are not strings, and any text that is not UTF-8, where the source skips such values and such strings unread.
- CustomServerName.StripExe: lowers the letters A to Z only, so Unicode case mapping, which can change lengths, is not modelled.
- FileNames.LicensedNameRoundTrip: is about markers the parser knows; the prefix printed at src/naming.rs:21 is not one of them.
- Audio: overflow of `usize` in sample counts and histogram counts, resampling, rechannelling and the devices. The time of the last tick is one static variable for all buffers in the source and a field of the buffer here.
- ClipboardCodec.ListRoundTrip: assumes that decompression undoes compression; a compressor that fails returns nothing, which the source takes for a good compression.
- ClipboardSync.OnlyLocalCopiesTravel: takes a user's copies to be without the marker; reading an occupied clipboard, files and the service for them are left out.
- SessionOptions.LoginConfigHandler.GetOptionMessage: the supported decodings are a parameter, and the frame rate that the handler remembers for itself beside sending it is left out.
- LoginPassword.LoginConfigHandler.HandlePeerInfo: is about plain ids, whose stored password is read and written under one name; for ids with the `nostr-webrtc://` prefix these are two files (`SessionOptions.NostrIdElsewhere`).
- LoginPassword.LoginConfigHandler.HandleHash: the hash function is a parameter with 32-byte results, texts are their bytes; two-factor login, the operating system's credentials, message boxes and the lookup in the address book are left out.
- LoginPassword.LoginConfigHandler.constructor: a token is trusted to name its source correctly, as the source does.
- VideoDecoder.RunKeeps: an update stands for the list it was made from; the ability flags derived from it, pictures, recording and frame rates are left out. Marking under the lock and sending afterwards are separate atomic steps.
- UdpPunch.PunchUdp: instants are whole nanoseconds. A sleep may be cut by 10 ns, more than the rounding of its length to a 32-bit float can take off.
- Throttle.ThrottledInterval.constructor: nine tenths of the period is computed on whole nanoseconds, not through floating point.
- ServerList.BareIpv6: takes the digits of a port to be ASCII, where the regular expression admits any Unicode digit.
- Color.Str2ColorInDart: integers that wrap at 64 bits, as on native platforms, written as residues; compiled to JavaScript the interface's arithmetic is another.
- Rendezvous, relay, NAT, WebRTC and key exchange code, the rest of the inter-process dispatcher, platform code, user interfaces and scripts.
- The thread lifecycle of the client's clipboard loop: notifications and deliveries are atomic steps.
