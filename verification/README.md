# wpa_ctrl, modelled and proved

`wpa_ctrl` is a Python client of the control interface of wpa_supplicant: one
datagram socket over which commands are sent, and over which replies and
unsolicited events come back mixed together. This project models its core in
Dafny and proves what the core is for. `dafny verify dfyconfig.toml` checks it.

There are four parts.

**One octet string, many spellings** (`octets.dfy`, `printf.dfy`,
`printf_laws.dfy`, `printf_units.dfy`, `ssid.dfy`, `events.dfy`,
`event_laws.dfy`, `replies.dfy`, `reply_laws.dfy`, `stray_lines.dfy`,
`dpp.dfy`, `dpp_laws.dfy`, `carriers.dfy`). An SSID is octets (section 9.4.2.2 of IEEE Std
802.11-2020), which the daemon and its configuration spell in many ways. The
daemon's encoder is written down as a function, and `EveryCarrierDelivers`
shows that the client reads exactly the octets wherever they travel: blocks,
table rows, event payloads, the three configuration spellings and DPP
parameters. The decoder and the payload splitter are the loops of the source,
each proved equal to a recursive meaning; `CutIsSafeExactlyWhen` says for every
two texts whether decoding them apart or together is the same. What each piece
of the wire format stands for is stated on its text, with its characters and
numbers written out: each escape (`PrintfUnits`), UTF-8 through a decoder that
works by the bits alone (`DecodesExactly`, section 3 of RFC 3629), an event
with its prefix and final line feeds (`ParseEventOf` and its three companions),
and the lines and words that are passed over (`StrayLines`,
`StrayWordSaysNothing`).

**What a network offers** (`security.dfy`, `security_laws.dfy`,
`scan_words.dfy`). The scanner of
key management names is maximal munch over a vocabulary whose names hold the
separators of the cipher list. `ScanIsExact` gives the exact condition for a
printed list to read back, `OpenSafety` the exact condition for "no key
needed", and `ParseIsHomomorphic` makes the parser indifferent to the order of
groups. These hold for any vocabulary; `ScanWords` has the four protocols and
the twenty-one names of a scan written out, and `ProtocolIsNeverLost` is the
promise that a secured network is not taken for an open one.

**The connection** (`transport.dfy`, `connection.dfy`, `client.dfy`,
`reading.dfy`). The class
`WpaCtrl` is the client with its fields and loops, over a transport whose
daemon and clock may do anything whenever the client waits. Each method records
its steps in a ghost log, and the log is always a run of the state machine in
`connection.dfy`. What holds after every run of that machine therefore holds
after any calls of the class in any order: `ClientConservesEvents` and
`ReplyCorrespondence`. `Drain` is the loop the documentation asks of a caller
with an event loop, and hands out every event. The transport keeps a ghost list
of ticks - each reading of the time, each look at the queue, each datagram
taken, each wait that missed, with the time it was ready to wait, and each
failure - so that a method can be held to its errors and its waits: it waits
for just the time that is left, goes on exactly while some is, times out only
when none is, and raises a connection error exactly where the socket failed
(`Timely`, `Answer`, `FailsWithTheSocket`).

**Walks of tables that change** (`keyed_walk.dfy`, `bss_walk.dfy`,
`walk_entries.dfy`, `network_walk.dfy`, `log_places.dfy`, `serving.dfy`). The generators `iter_bss`, `iter_stations`,
`iter_p2p_peers` and `iter_networks` are classes whose `Next` makes at most one
round trip. Some properties hold against any daemon, however broken: no key
twice, a bound on the commands. Others hold against one that keeps the
documented promises while entries come and go between the round trips; the
promises are `BssWalk.RepliesTo` (NEXT answers the first entry after a present
id, and empty for a dropped one) and `NetworkWalk.RepliesTo` (LAST_ID answers a
nonempty prefix of the ids above it, if there are any). Fresh rising ids are a
further assumption, made only where `FreshIds` is written. The last two put
walks and connection together: each walk keeps the places of its requests in
the client's log, and with a daemon that answers in order and no request given
up on, the replies of the walk are the answers to its own commands
(`OwnAnswerAt`). So `BssWalkOnConnection` and `NetworkWalkOnConnection` rest on
what the daemon answers to each command, other commands running in between.
What the entries carry is told on the texts of the replies
(`BssEntriesOnConnection`, `YieldedStation`).

Where the code and its own documentation part, the code is modelled:

- `dpp_configurator_params` says it refuses a call without a secret
  (wpa_ctrl/dpp.py:111), but lets an empty passphrase through and then sends
  none (wpa_ctrl/dpp.py:116-123). `EmptyPassphraseSendsNoSecret` has those
  inputs; `ConfiguratorParamsReadBack` has the condition for all inputs.
- `request` may return the answer to an earlier command that was given up on.
  `LateReplyIsMistaken` is such a run; `ReplyCorrespondence` says when a reply
  is its own command's.
- `next_event` documents None as "none arrived in time" (wpa_ctrl/client.py:184),
  but with no time left it can throw one reply away and give up in front of an
  event (wpa_ctrl/client.py:195-199). `NoneInFrontOfEvent` is such a run;
  `NoneIsTrustedExactlyWhen` says when None can be trusted.
- `request` times out with "only events arrived" (wpa_ctrl/client.py:131-132)
  right after setting an event aside, even with its reply queued.
  `TimeoutInFrontOfReply` is such a run. `TimeoutIsTrustedExactlyWhen` says
  when a timeout can be trusted beforehand to leave no reply queued: only where
  a reply heads the queue, and then there is none.
  `QuietTimeoutIsTrustedExactlyWhen` is the case in which no event comes in.
- `FT/SAE-EXT-KEY` fits none of the three tests of `sae`
  (wpa_ctrl/security.py:123-126), so a network that offers only it counts as
  neither psk nor sae. `FtSaeExtKeyCountsAsNothing` is such a network;
  `PersonalOffers` says which names count.
- `iter_networks` fills `seen` only after it has filtered a page
  (wpa_ctrl/client.py:409-415), so a reply that lists an id twice yields it
  twice. `RepeatedRowIsYieldedTwice` is such a walk; `RepeatsAreWithinReplies`
  has the condition.
- `quote` escapes what the plain quoted form of `from_config` does not
  unescape. `QuoteReadsBack` says when the two agree.

## Model

| member | source | states |
|---|---|---|
| `Printf.PrintfDecode` | wpa_ctrl/ssid.py:34-70 | the index loop, for every text, returns the concatenation of what its escape units stand for; it stays in range and ends |
| `Printf.DecodeEscape` | wpa_ctrl/ssid.py:46-69 | after a backslash the loop takes exactly one unit: named, hexadecimal, octal or unknown escape |
| `Printf.ReadHex` | wpa_ctrl/ssid.py:50-55 | takes as many hexadecimal digits as there are, two at most, and those digits |
| `Printf.ReadOctal` | wpa_ctrl/ssid.py:58-65 | takes as many octal digits as there are, three at most, and their number |
| `PrintfLaws.Encoded` | wpa_ctrl/ssid.py:19-31 | the daemon's encoder prints printable ASCII only, between one and four characters for each octet |
| `PrintfLaws.RoundTrip` | wpa_ctrl/ssid.py:19-70 | for every octet string, decoding what the daemon printed gives back the octets |
| `PrintfLaws.EncodedInjective` | wpa_ctrl/ssid.py:19-70 | no two octet strings are printed alike |
| `PrintfLaws.DecodedNoLonger` | wpa_ctrl/ssid.py:36-70 | ASCII text yields at most one octet for each character |
| `PrintfLaws.OctalReads` | wpa_ctrl/ssid.py:58-66 | three octal digits are one octet, kept to eight bits, and the text after them is read on its own |
| `PrintfLaws.LenientReads` | wpa_ctrl/ssid.py:27-31 | an unknown escape stands for its character; an x without digits and a backslash at the end are dropped |
| `PrintfUnits.NamedReads` | wpa_ctrl/ssid.py:15-16 | each of the six named escapes stands for its octet, written out, whatever text follows |
| `PrintfUnits.OtherReads` | wpa_ctrl/ssid.py:67-69 | a backslash before any character but those that begin an escape, listed, is dropped and the character kept |
| `PrintfUnits.HexReads` | wpa_ctrl/ssid.py:49-57 | two hexadecimal digits of either case are one octet before anything at all, one digit before anything that is not another |
| `PrintfUnits.ShortOctalReads` | wpa_ctrl/ssid.py:58-66 | so are one or two octal digits before anything that is not another |
| `PrintfUnits.PlainTextIsKept` | wpa_ctrl/ssid.py:41-42 | text without a backslash decodes to octets that spell that same text |
| `PrintfLaws.DecodedAppend` | wpa_ctrl/ssid.py:43-69 | split law: decoding distributes over a cut at which the second part cannot lengthen the last escape of the first |
| `PrintfLaws.CutMatters` | wpa_ctrl/ssid.py:48-66 | a cut inside an hexadecimal or octal escape that could go on always changes what is decoded |
| `PrintfLaws.LoneBackslashCut` | wpa_ctrl/ssid.py:45-46 | the exact texts in front of which a cut-off backslash changes nothing |
| `PrintfLaws.CutIsSafeExactlyWhen` | wpa_ctrl/ssid.py:34-70 | for every two texts: decoding them joined equals joining them decoded if and only if the cut is safe, which shows from how the first ends and the second begins |
| `Ssid.FromConfigAccepts` | wpa_ctrl/ssid.py:91-120 | a value is accepted if and only if it is a terminated quoted form of either kind or hex of even length; anything else is a ValueError |
| `Ssid.FromConfigQuoted` | wpa_ctrl/ssid.py:109-117 | the quoted form is read as the octets that decode to the literal text up to the last quote, the P form as its printf decoding, quotes inside included |
| `Ssid.FromConfigOfHex` | wpa_ctrl/ssid.py:118-120 | hex of either case reads as the octets it is the hexdump of |
| `Ssid.FromConfigHex` | wpa_ctrl/ssid.py:118-120 | the hexdump of any octet string reads back as those octets |
| `Octets.DecodesExactly` | wpa_ctrl/ssid.py:111 | an octet string spells a text, read by its bits alone, if and only if encoding the text gives those octets: for every text and octet string |
| `Ssid.ConfigSpellingsAgree` | wpa_ctrl/ssid.py:109-144 | config_value, hex and P with printf escapes all read back as the same octets, for every octet string |
| `Ssid.ConfigValueInjective` | wpa_ctrl/ssid.py:134-144 | config_value gives no two octet strings one spelling |
| `Ssid.ConfigValueForm` | wpa_ctrl/ssid.py:134-144 | octets from 32 to 126 only are written in quotes, a character for each; all others as the hexdump |
| `Ssid.TwoReplacementsAreOnePass` | wpa_ctrl/ssid.py:150-152 | quote's two replacements in a row are one escape of each character: the second leaves alone what the first put in |
| `Ssid.QuoteReadsBack` | wpa_ctrl/ssid.py:146-152 | with a P in front the quoted value always reads back as octets that decode to it; without it, if and only if it has no backslash and no double quote |
| `Ssid.PskValueInjective` | wpa_ctrl/ssid.py:182-192 | no two secrets share a wire form, and only a raw key goes unquoted, as 32 octets of hex |
| `Ssid.PskForm` | wpa_ctrl/ssid.py:180-192 | sixty-four characters from the twenty-two that are digits of either case, and nothing else, go unquoted |
| `Octets.HexOfFromHex` | wpa_ctrl/ssid.py:120 | bytes.fromhex undoes the hexdump, whatever the case of the digits |
| `Octets.HexAt` | wpa_ctrl/ssid.py:144 | a hexdump has two lower-case digits for each octet, the higher four bits first |
| `Events.ParseEvent` | wpa_ctrl/events.py:429-444 | for every datagram, the event it is; the four laws below say which, on the text of the datagram |
| `Events.ParseEventOf` | wpa_ctrl/events.py:429-444 | priority, name, space and parameters read back as printed, any number of line feeds at the end being dropped, and the datagram is told from a reply |
| `Events.ParseNameOnly` | wpa_ctrl/events.py:429-444 | so does a priority and a name alone, with no parameters |
| `Events.ParseUnprefixed` | wpa_ctrl/events.py:430-444 | a message with no number between a less-than sign in front and the first greater-than sign is kept whole, at priority 3 |
| `Events.ParseUnprefixedName` | wpa_ctrl/events.py:430-444 | so is one of a name alone |
| `Events.TempDisabledOnly` | wpa_ctrl/events.py:560-577 | the typed view is given of the event of that one name, written out, and of no other |
| `Events.SplitParams` | wpa_ctrl/events.py:456-479 | the loop's two flags scan as the three modes plain, quoted and escaped do |
| `Events.ParseParams` | wpa_ctrl/events.py:501-510 | for every payload, the pairs of its tokens, the last of a key winning, and the order the dictionary keeps them in |
| `EventLaws.SplittingIsLossless` | wpa_ctrl/events.py:454-479 | every token is nonempty and unbroken, all but the last end outside quotes, and together they are the text without the spaces outside quotes |
| `EventLaws.TokensOfJoin` | wpa_ctrl/events.py:456-479 | tokens joined by single spaces split into those tokens |
| `EventLaws.SplittingIsStable` | wpa_ctrl/events.py:456-479 | splitting again what was split and joined changes nothing |
| `EventLaws.RunEncoded` | wpa_ctrl/events.py:461-468 | printf-escaped octets never close the quotes around them, whatever they are |
| `EventLaws.TokenSays` | wpa_ctrl/events.py:504-509 | a token says the text after its first equals sign, without its quotes exactly when it has one at each end |
| `EventLaws.TokenSaysNothing` | wpa_ctrl/events.py:504-506 | a token says nothing if and only if it has no equals sign or begins with one |
| `EventLaws.StrayWordSaysNothing` | wpa_ctrl/events.py:490-493 | such a word anywhere among the others leaves the pairs of the payload, and their order, as they are without it |
| `EventLaws.PayloadReadsBack` | wpa_ctrl/events.py:482-510 | a payload of clean fields, plain or quoted and escaped, parses to exactly their map |
| `EventLaws.FieldMapAt` | wpa_ctrl/events.py:498-499 | a field is found under its key with its own value, unless a later one has the key |
| `EventLaws.FieldMapKeys` | wpa_ctrl/events.py:498-499 | no key is found that no field has |
| `EventLaws.OrderIsOfPairs` | wpa_ctrl/events.py:498-510 | the order names each key that is found, once |
| `EventLaws.PayloadKeepsOrder` | wpa_ctrl/events.py:498-499 | a payload whose keys are distinct reads back in the order it was printed in |
| `Replies.ParseVariables` | wpa_ctrl/replies.py:25-31 | for every reply, the pairs of its lines, the last of a key winning, and the order the dictionary keeps them in |
| `ReplyLaws.OrderIsOfVariables` | wpa_ctrl/replies.py:24-31 | the order names each key that is found, once |
| `ReplyLaws.OrderIsByFirst` | wpa_ctrl/replies.py:24-31 | keys stay in the order in which they first come: later lines add at the end only |
| `Replies.ParseTable` | wpa_ctrl/replies.py:40-53 | for every reply and number of columns, the rows under the header, each of exactly the columns asked for where any are |
| `Replies.ParseNetworks` | wpa_ctrl/client.py:376-385 | the rows whose id is a number, in their order, the others dropped |
| `Replies.ParseScanResults` | wpa_ctrl/client.py:276-285 | the rows whose frequency and level are numbers, in their order, the others dropped |
| `ReplyLaws.BlockField` | wpa_ctrl/replies.py:25-31 | a line of a block is found under its key, whatever comes before and after that does not set the key again |
| `ReplyLaws.LastBlockField` | wpa_ctrl/replies.py:25-31 | so is the last line, without its line feed |
| `StrayLines.StrayLineSaysNothing` | wpa_ctrl/replies.py:22-31 | a line without an equals sign, wherever it stands, leaves the block as it is without it |
| `TextLaws.LineBreaksAre` | wpa_ctrl/replies.py:27 | the characters that end a line are the ten that end one in Python |
| `ReplyLaws.RowReadsBack` | wpa_ctrl/replies.py:45-52 | a row is read back whole even when its last field holds separators |
| `ReplyLaws.TableReadsBack` | wpa_ctrl/replies.py:34-53 | a printed table reads back as its rows, whatever its header says |
| `StrayLines.StrayRowIsSkipped` | wpa_ctrl/replies.py:42-48 | under the header a line of white space, or of fewer fields than columns, leaves the other rows as they are without it |
| `StrayLines.RowInItsPlace` | wpa_ctrl/replies.py:42-53 | a row is found between the rows of the lines before it and those of the lines after it |
| `ReplyLaws.NetworksReadBack` | wpa_ctrl/client.py:376-385 | a printed LIST_NETWORKS reply reads back as its networks |
| `ReplyLaws.ScanResultsReadBack` | wpa_ctrl/client.py:276-285 | a printed SCAN_RESULTS reply reads back as its results |
| `StrayLines.StrayNetworkIsSkipped` | wpa_ctrl/client.py:376-385 | a row whose id is no number leaves the other networks as they are without it |
| `StrayLines.StrayScanResultIsSkipped` | wpa_ctrl/client.py:276-285 | so does one whose frequency or level is none |
| `TextLaws.ParseIntTakes` | wpa_ctrl/client.py:379-383 | int() takes digits with single underscores between them, a sign or none, and white space around, and gives the number they write |
| `TextLaws.ParseIntTakesOnly` | wpa_ctrl/client.py:379-383 | and takes nothing else |
| `ReplyLaws.AddressReadsBack` | wpa_ctrl/replies.py:402-421 | an address on the first line is found there, with the variables under it |
| `ReplyLaws.NoAddress` | wpa_ctrl/replies.py:403-407 | a reply without a colon names no entry |
| `ReplyLaws.NoEntryIsRead` | wpa_ctrl/replies.py:410-421 | FAIL, UNKNOWN COMMAND and an empty reply all mean that there is no entry |
| `Dpp.ParamsReadBack` | wpa_ctrl/dpp.py:127-137 | reading a formatted parameter string as an event payload gives back the parameters that were not None, under their names without trailing underscores |
| `Dpp.DppHexReadsBack` | wpa_ctrl/dpp.py:38-53 | exactly the empty value is refused, and any other hexdump decodes to the octets it was made of |
| `DppLaws.DppHexForm` | wpa_ctrl/dpp.py:49-53 | two lower-case digits for each octet, of octets that decode to the text where text is given |
| `DppLaws.FormatOne` | wpa_ctrl/dpp.py:135-137 | one parameter is its name without underscores at its end, an equals sign and its value verbatim; nothing when it is None |
| `DppLaws.FormatAppend` | wpa_ctrl/dpp.py:135-137 | the parameters of two lists are those of each with one space between them, none where either says nothing |
| `Dpp.ConfiguratorParamsReadBack` | wpa_ctrl/dpp.py:95-125 | the string carries the network's octets and the secret given; it carries a secret if and only if the passphrase is not the empty text |
| `DppLaws.ConfiguratorText` | wpa_ctrl/dpp.py:122-125 | the whole parameter string, in its order: conf, ssid, the secret, the configurator, the extra parameters |
| `DppLaws.RefusedExactlyWhen` | wpa_ctrl/dpp.py:116-121 | a call is a ValueError if and only if it has no secret or two, a key of the wrong form, or an empty ssid |
| `Dpp.EmptyPassphraseSendsNoSecret` | wpa_ctrl/dpp.py:111-125 | the inputs on which the promise to refuse a call without a secret fails: an empty passphrase, for any configuration and network |
| `Carriers.BlockDelivers` | wpa_ctrl/replies.py:249-252 | the ssid line of a STATUS or BSS block delivers the octets it was printed from |
| `Carriers.ScanRowDelivers` | wpa_ctrl/replies.py:140-147 | a row of a SCAN_RESULTS table, anywhere in it, delivers the octets it was printed from |
| `Carriers.NetworkListDelivers` | wpa_ctrl/replies.py:72-78 | so does a row of a LIST_NETWORKS table |
| `Carriers.EventDelivers` | wpa_ctrl/events.py:560-582 | a SSID-TEMP-DISABLED datagram delivers them through prefix, quotes and escapes |
| `Carriers.EveryCarrierDelivers` | wpa_ctrl/ssid.py:75-120 | in every place an SSID travels - blocks, rows, events, three configuration spellings, DPP parameters - the client reads exactly the octets |
| `Carriers.SpellingsMeetAsOctets` | wpa_ctrl/ssid.py:99-104 | the spellings of two places read alike if and only if they were made of the same octets |
| `Security.ScanKeyMgmt` | wpa_ctrl/security.py:64-83 | the moving index collects the run of names at the front of the body, for every body |
| `Security.FirstName` | wpa_ctrl/security.py:68-75 | the inner loop finds the first name of the vocabulary with a separator or the end after it, or none |
| `Security.ParseSecurity` | wpa_ctrl/security.py:172-187 | the three sets are the union of what each bracketed group contributes, for every flags text and for none at all; the laws of ScanWords below say what that is, in the words of a scan |
| `SecurityLaws.ScanVocabularyIsGood` | wpa_ctrl/security.py:43-54 | the vocabulary is in falling order of length and no name holds a plus sign |
| `SecurityLaws.FirstFitIsLongest` | wpa_ctrl/security.py:43-54 | the first name that fits is the longest that does |
| `SecurityLaws.ScanIsExact` | wpa_ctrl/security.py:57-83 | names joined by plus signs, then ciphers, read as those names if and only if no longer name reaches from the last one into the ciphers |
| `SecurityLaws.ScanReadsBack` | wpa_ctrl/security.py:43-83 | in the vocabulary of a scan every list of names is read back as it is in front of ciphers such as CCMP or TKIP |
| `SecurityLaws.ScanIsSound` | wpa_ctrl/security.py:57-83 | for every body the names found are known ones, and joined they are a prefix of the body that ends at a separator |
| `SecurityLaws.ScanIsMaximal` | wpa_ctrl/security.py:43-83 | no other list of known names reads further into the body |
| `SecurityLaws.ParseSaysWhatGroupsSay` | wpa_ctrl/security.py:165-187 | each set holds a name if and only if some group says it: nothing made up, nothing lost |
| `SecurityLaws.EveryGroupCounts` | wpa_ctrl/security.py:167-187 | every group that is not empty is accounted for by its protocol or verbatim in flags |
| `SecurityLaws.NamesComeWithProtocol` | wpa_ctrl/security.py:100-114 | where there are key management names there is a protocol |
| `SecurityLaws.OpenSafety` | wpa_ctrl/security.py:100-114 | for whatever words the parser is given: open is the answer if and only if no group begins with one of its protocols and a dash and none is WEP |
| `SecurityLaws.ParseIsHomomorphic` | wpa_ctrl/security.py:172-187 | flags cut after a closing bracket parse to the union of the parts |
| `SecurityLaws.OrderDoesNotMatter` | wpa_ctrl/security.py:172-187 | the order of closed groups changes nothing |
| `SecurityLaws.OffersOnlyGrow` | wpa_ctrl/security.py:112-143 | more groups never withdraw psk, sae or transition_mode, and the whole is open exactly when both parts are |
| `SecurityLaws.PersonalOffers` | wpa_ctrl/security.py:116-126 | which names of a scan count as psk and as sae, exactly, for every flags text |
| `SecurityLaws.FtSaeExtKeyCountsAsNothing` | wpa_ctrl/security.py:123-126 | a flags text of an SAE network that parses to FT/SAE-EXT-KEY alone, counts as neither psk nor sae, and is not open |
| `SecurityLaws.FlagsReadBack` | wpa_ctrl/security.py:176-187 | printed groups read back as the union of what they say |
| `SecurityLaws.GroupReadsBack` | wpa_ctrl/security.py:178-184 | a printed group reads back as its protocol and exactly its names, its ciphers as nothing |
| `ScanWords.NamesAre` | wpa_ctrl/security.py:46-54 | the vocabulary holds the twenty-one names, each written out, and no other |
| `ScanWords.ProtocolIsReported` | wpa_ctrl/security.py:176-184 | a protocol is reported if and only if it is WPA2, WPA, RSN or OSEN and some group begins with it and a dash |
| `ScanWords.FlagIsReported` | wpa_ctrl/security.py:176-186 | a group is kept verbatim if and only if it is not empty and begins with none of the four and a dash |
| `ScanWords.OpenExactlyWhen` | wpa_ctrl/security.py:100-114 | open is the answer if and only if no group begins with one of the four and a dash, and none is WEP |
| `ScanWords.ProtocolIsNeverLost` | wpa_ctrl/security.py:100-110 | whatever a group of one of the four says after its dash, and whatever flags stand around it, it is reported under that protocol and the network is not open |
| `ScanWords.NetworkReadsBack` | wpa_ctrl/security.py:172-187 | amid any flags, a printed group of one of the four protocols, any of the twenty-one names and clear ciphers adds exactly that protocol and those names |
| `ScanWords.OtherGroupReadsBack` | wpa_ctrl/security.py:165-186 | any other group adds exactly itself, and empty brackets add nothing |
| `ScanWords.OutsideSaysNothing` | wpa_ctrl/security.py:176-179 | text outside the brackets says nothing, and a last bracket need not be closed |
| `ScanWords.PersonalNetwork` | wpa_ctrl/security.py:116-143 | psk, sae and transition_mode, name by name, for every flags text |
| `ScanWords.NoFlags` | wpa_ctrl/security.py:176 | no flags at all are read as an empty column, and that as an open network |
| `Connection.EventsAreConserved` | wpa_ctrl/client.py:115-199 | over every run, timeouts included: events delivered, set aside and queued are those that arrived, in order |
| `Connection.RepliesAreAccounted` | wpa_ctrl/client.py:120-199 | over every run: each reply was returned, thrown away or is queued, in order; each command was answered, given up on or is being waited for |
| `Connection.DebtIsUnanswered` | wpa_ctrl/client.py:120-199 | requests given up on less replies thrown away is the number of commands still unanswered, and bounds the replies queued |
| `Connection.DebtIsNotNegative` | wpa_ctrl/client.py:195-197 | next_event never throws away the answer to a request that is still to come |
| `Connection.RequestAndReply` | wpa_ctrl/client.py:120-132 | with a daemon that answers each command once and in order, a request that returns gives the answer to the command sent debt commands before its own, the debt as it was at its start |
| `Connection.NoTimeoutNoDebt` | wpa_ctrl/client.py:120-132 | a run in which no request was given up on has no debt, so no mismatch, and leaves no reply queued |
| `Connection.LateReplyIsMistaken` | wpa_ctrl/client.py:120-132 | a run of an honest daemon in which a request returns another command's answer, and not its own: after a timeout |
| `Transport.CtrlTransport.Open` | wpa_ctrl/transport.py:94-120 | opening twice does nothing; a new connection starts with nothing queued; a failure leaves it closed |
| `Transport.CtrlTransport.Close` | wpa_ctrl/transport.py:123-128 | closed, with nothing queued |
| `Transport.CtrlTransport.Send` | wpa_ctrl/transport.py:139-144 | one datagram goes out, or none and an error |
| `Transport.CtrlTransport.Receive` | wpa_ctrl/transport.py:149-160 | the oldest datagram and no other is taken, or a timeout not before its time, or an error that takes none |
| `Transport.CtrlTransport.Pending` | wpa_ctrl/transport.py:173-179 | whether a datagram is waiting, none consumed; no before the time is up is never the answer |
| `Transport.CtrlTransport.Remaining` | wpa_ctrl/transport.py:207-209 | the time to the deadline, never negative |
| `Client.WpaCtrl.constructor` | wpa_ctrl/client.py:73-83 | a new client is closed, not attached, with no events |
| `Client.WpaCtrl.Open` | wpa_ctrl/client.py:93-95 | a new session starts exactly when none was open |
| `Client.WpaCtrl.SendCommand` | wpa_ctrl/client.py:123-124 | opens if need be and sends the command once, or fails having sent nothing |
| `Client.WpaCtrl.Close` | wpa_ctrl/client.py:97-100 | detached, no events, closed |
| `Client.WpaCtrl.Request` | wpa_ctrl/client.py:112-132 | sends its command once and returns the first reply after it, events being set aside until then; it waits for just the time left, fails if and only if the last thing the socket did was to fail, and times out only at the deadline, on a wait that found nothing or on a reading of the time after an event; while time is left it goes on |
| `Client.FailsWithTheSocket` | wpa_ctrl/transport.py:139-160 | of any request: it is a connection error if and only if the socket failed, as the last thing that happened |
| `Client.WpaCtrl.AwaitReply` | wpa_ctrl/client.py:125-132 | the loop ends for every finite supply of datagrams, each event kept and none reordered; it waits for just the time left, looks at the time after each event, goes on exactly while some is left, and ends in an error only where the socket failed or time was up |
| `Client.WpaCtrl.TakeReply` | wpa_ctrl/client.py:126-129 | the oldest datagram is taken: a reply is the answer, an event is set aside; a timeout means that nothing was queued, a failure that the socket failed |
| `Client.WpaCtrl.ReplyTurn` | wpa_ctrl/client.py:126-132 | one turn of the loop: after an event there is another exactly if time is left, and otherwise the timeout |
| `Reading.FirstReplyIsReturned` | wpa_ctrl/client.py:120-132 | for the run of any answered request: what was queued and came in is the events set aside, the reply returned and what is still queued, in that order; a reply queued at the start is the one returned |
| `Reading.TimeoutInFrontOfReply` | wpa_ctrl/client.py:129-132 | a run in which a request gives up as if only events had arrived while its reply is queued |
| `Reading.TimeoutMeansNothing` | wpa_ctrl/client.py:129-132 | where no event is queued or comes, a request that times out leaves nothing queued |
| `Client.WpaCtrl.Command` | wpa_ctrl/client.py:134-140 | succeeds exactly on an answered OK; any other answer is an error that carries the command and the reply; any other error is as of a request |
| `Client.WpaCtrl.Attach` | wpa_ctrl/client.py:152-155 | attached is set exactly when ATTACH was answered OK; a connection error is raised exactly where the socket failed |
| `Client.WpaCtrl.Detach` | wpa_ctrl/client.py:157-160 | attached is cleared exactly when DETACH was answered OK; a connection error is raised exactly where the socket failed |
| `Client.WpaCtrl.Pending` | wpa_ctrl/client.py:177-180 | true exactly when an event is set aside or a datagram waits, for which it looks just as long as asked; nothing is consumed, and it fails exactly where the socket does |
| `Reading.TimeoutIsTrustedExactlyWhen` | wpa_ctrl/client.py:120-132 | before any request on an idle connection: that its timeout will leave no reply queued, whatever an honest daemon does meanwhile, can be trusted if and only if a reply heads the queue, and then there is no timeout |
| `Reading.QuietTimeoutIsTrustedExactlyWhen` | wpa_ctrl/client.py:120-132 | the same where no event comes in during the call, as on a connection that is not attached: if and only if no event heads the queue |
| `Client.WpaCtrl.NextEvent` | wpa_ctrl/client.py:182-199 | the oldest event set aside, or else one from the queue, only replies before it being thrown away; None only at the deadline, with nothing queued or on a reading of the time after a reply was thrown away; an error exactly where the socket failed; each answer uses something up if anything waited |
| `Client.WpaCtrl.AwaitEvent` | wpa_ctrl/client.py:188-199 | the loop returns the first event queued after replies it throws away; it waits for just the time left, looks at the time after each reply, goes on exactly while some is left, and ends in an error only where the socket failed |
| `Client.WpaCtrl.TakeEvent` | wpa_ctrl/client.py:189-197 | the oldest datagram is taken: an event is the answer, a reply is thrown away; to answer None at once means that nothing was queued, an error that the socket failed |
| `Client.WpaCtrl.EventTurn` | wpa_ctrl/client.py:189-199 | one turn of the loop: after a reply there is another exactly if time is left, and otherwise None |
| `Reading.NoneMeansNothing` | wpa_ctrl/client.py:182-199 | with no request given up on, None says that nothing was queued |
| `Reading.NoneInFrontOfEvent` | wpa_ctrl/client.py:195-199 | a run of an honest daemon in which next_event throws a late reply away and answers None in front of an event |
| `Reading.NoneIsTrustedExactlyWhen` | wpa_ctrl/client.py:182-199 | that None will leave no event queued, whatever an honest daemon does meanwhile, can be trusted if and only if no request given up on is unanswered or an event heads the queue |
| `Reading.Drain` | wpa_ctrl/client.py:162-173 | draining while pending() stays true ends, and hands out every event set aside, queued or coming in meanwhile, in its order, leaving nothing queued; it stops short only where the socket failed |
| `Client.ClientConservesEvents` | wpa_ctrl/client.py:115-199 | after any calls in any order, events handed out, those in the client's list and those still queued are the parsed events that arrived since opening, in order, none lost or doubled |
| `Client.ReplyCorrespondence` | wpa_ctrl/client.py:120-132 | for the run of any answered request: which command its reply answers; where answers differ, its own if and only if the debt is zero |
| `Walks.WithId` | wpa_ctrl/client.py:327-328 | the id bit is added to the mask, negative ones included, and no other bit changes |
| `Walks.CommandsAreBounded` | wpa_ctrl/client.py:332-337 | against any daemon: a walk over N distinct keys yields at most N entries and sends at most N + 1 commands, one that fails included |
| `Walks.KeyedWalk.constructor` | wpa_ctrl/client.py:313-316 | nothing is sent until iteration begins |
| `Walks.KeyedWalk.Next` | wpa_ctrl/client.py:326-340 | one resumption is at most one request with the client's own timeout, answered or not, for the command that goes on from the last entry, and its place in the log is kept; no key is ever yielded twice; the walk ends on a reply that names no entry or an old one, or on an error, a connection error exactly where the socket failed |
| `Walks.KeyedWalk.Advance` | wpa_ctrl/client.py:427-440 | the step after a reply, for stations, peers and BSSes alike; what the entry carries is said by the laws of WalkEntries, on the text of the reply |
| `WalkEntries.CommandsSent` | wpa_ctrl/client.py:326-340 | the commands of the three walks, letter by letter: the first, and the one that goes on from each entry |
| `WalkEntries.MaskIsSent` | wpa_ctrl/client.py:296-298 | a mask goes out in hexadecimal as it is but for its id bit, which is set, negative ones with their sign |
| `WalkEntries.EntriesAreBlocks` | wpa_ctrl/client.py:332-339 | each entry of a BSS walk carries its id and all that the block of that id, in the table of its round trip, says |
| `WalkEntries.EntryHoldsLine` | wpa_ctrl/client.py:302-339 | so each line of that block is found under its key with its value, and the id under id |
| `WalkEntries.NoIdNoEntry` | wpa_ctrl/client.py:333-337 | a BSS reply names no entry if and only if no line of it sets the id |
| `WalkEntries.AddressedEntry` | wpa_ctrl/replies.py:416-421 | a reply headed by an address, white space around it or none, is an entry of that address and of the variables under it |
| `WalkEntries.AddressesAre` | wpa_ctrl/replies.py:402-407 | an address is six pairs of hexadecimal digits of either case with colons between them, and nothing else |
| `WalkEntries.NoAddressNoEntry` | wpa_ctrl/replies.py:416-421 | a reply names no station and no peer if and only if its first line, white space aside, is no address |
| `WalkEntries.YieldedStation` | wpa_ctrl/client.py:427-440 | in a walk over stations or peers such a reply yields that address, and each of its lines under its key |
| `BssWalk.CommandsAreUnambiguous` | wpa_ctrl/client.py:298-302 | the commands of a BSS walk name the id they go on from, and no two alike |
| `BssWalk.WalkClimbs` | wpa_ctrl/client.py:304-340 | whatever comes and goes between round trips, each entry yielded was the first of its table after the one before, and that one was still there |
| `BssWalk.ClimbIncreases` | wpa_ctrl/client.py:304-340 | the ids yielded rise strictly |
| `BssWalk.NotMissed` | wpa_ctrl/client.py:308-314 | an entry present while the walk passes its id is yielded |
| `BssWalk.ThroughoutIsYielded` | wpa_ctrl/client.py:304-340 | a finished walk yields once each BSS that was there throughout, if the last one yielded was there at the end; else all of them up to that one |
| `BssWalk.OnlyTheTailIsLost` | wpa_ctrl/client.py:310-314 | with fresh rising ids: of the table as it is at the end a finished walk misses exactly what is above the last id yielded, and nothing unless that entry expired |
| `NetworkWalk.RepeatsAreWithinPages` | wpa_ctrl/client.py:405-417 | against any daemon: no id is yielded twice if and only if no page has one twice |
| `NetworkWalk.CommandsSent` | wpa_ctrl/client.py:406-417 | the commands of the walk, letter by letter: the list, and the list from behind the last network of each page |
| `NetworkWalk.UnseenAppend` | wpa_ctrl/client.py:409-411 | whether a network is seen is asked of each by itself, in the order of the reply |
| `NetworkWalk.RepeatsAreWithinReplies` | wpa_ctrl/client.py:405-417 | the same in terms of what the daemon sends: no id is yielded twice if and only if no reply lists twice an id that no reply before it lists |
| `NetworkWalk.RepeatedRowIsYieldedTwice` | wpa_ctrl/client.py:409-415 | a whole walk, in reply texts, that yields a network twice |
| `NetworkWalk.CommandsAreBounded` | wpa_ctrl/client.py:400-417 | against any daemon: a walk over N distinct ids sends at most N + 1 commands, one that fails included |
| `NetworkWalk.UnknownCommandEndsTheWalk` | wpa_ctrl/client.py:401-404 | against a daemon too old for the continuation a walk that ends has yielded exactly its first reply's networks, having asked at most once more |
| `NetworkWalk.WalkClimbs` | wpa_ctrl/client.py:393-417 | each page is the next page of its table after the last id before it, whole, whatever was added or removed meanwhile |
| `NetworkWalk.WalkRises` | wpa_ctrl/client.py:393-417 | the ids yielded rise strictly over all pages |
| `NetworkWalk.FinishedWalkMissesNothing` | wpa_ctrl/client.py:393-417 | a finished walk yields once each network configured throughout, and each added in time above the cursor, even if the network that LAST_ID names is removed |
| `NetworkWalk.NetworkIterator.constructor` | wpa_ctrl/client.py:405-407 | nothing is sent until iteration begins |
| `NetworkWalk.NetworkIterator.Next` | wpa_ctrl/client.py:405-417 | one network at a time; a request, answered or not, only when the page is used up, for the page after its last id, and with the client's own timeout; at the end all that the pages held was yielded, and an iterator that has ended or failed only ends again |
| `NetworkWalk.NetworkIterator.TakePage` | wpa_ctrl/client.py:409-413 | a page is what its reply lists and was not seen; one that brings nothing new ends the walk |
| `Places.OwnAnswerAt` | wpa_ctrl/client.py:326-337 | each round trip of a walk carries the answer to its own command, with an honest daemon, no debt at the first and no request given up on up to the last, whatever other commands run in between |
| `Places.CommandOfPlace` | wpa_ctrl/client.py:313-316 | the command of each round trip is the one its number names among all that were sent in the session |
| `Serving.BssIsServed` | wpa_ctrl/client.py:304-312 | what the BSS walk assumes of its replies follows from what the daemon answers to each command by its number |
| `Serving.NetworksAreServed` | wpa_ctrl/client.py:393-404 | so does what the walk of the networks assumes |
| `Serving.BssWalkOnConnection` | wpa_ctrl/client.py:304-340 | iter_bss on the connection itself: of the table at its last command a finished walk misses exactly what is above the last id yielded, and nothing unless that entry expired |
| `Serving.BssEntriesOnConnection` | wpa_ctrl/client.py:326-340 | and each entry it yielded is all of the block of its id in the table at its command, of a walk still under way as well |
| `Serving.NetworkWalkOnConnection` | wpa_ctrl/client.py:393-417 | iter_networks on the connection itself: a finished walk yields once, in rising order, every network configured throughout |

## Left out

- Events.ParseEvent: `int()` reads ASCII digits only, with signs, spaces and underscores as Python has them; the decimal digits of other scripts, which differ from one Python to the next, and Python's limit on the number of digits are not modelled.
- Replies.ParseNetworks: the same holds for the ids of its rows.
- Replies.ParseScanResults: the same holds for its frequencies and levels.
- TextLaws.ParseIntTakesOnly: what it calls a numeral has digits of that one script.
- Client.WpaCtrl.Request: that it ends rests on a finite though unknown number of datagrams arriving in a run; the clock of the model is real-valued, never goes back and moves as it likes, and a send, receive or select may fail at any time.
- Walks.KeyedWalk.Next: a generator is an object with a `Next`; the three keyed ones are one class with a cursor that says what to send and how to read a reply. The iteration protocol of Python itself is not modelled.
- BssWalk.OnlyTheTailIsLost: what the daemon promises about its table is an assumption, taken from wpa_ctrl/client.py:304-318; nothing is said of stations and peers beyond what holds against any daemon, since no order is promised for them.
- Real sockets: abstract addresses, naming and unlinking the client's path, and late replies that reach a socket reopened under the same name.
- The decoding of datagrams into text, with its replacement of bytes that are not UTF-8, and `Ssid.text`: library decodes. Strings are sequences of Unicode scalar values, without surrogates.
- The one-line command methods (status, network, P2P and DPP commands, `try_command`, `bss`, `list_networks`): formatting around `request`, whose parsing is modelled.
- The predicates of `Security` that test for one name or one flag (enterprise, owe, sae_only, pmf_required, pmf_capable), and the constants `KeyMgmt`, `Pmf`, `DppConf` and `BssMask`.
- The typed views other than the SSID of SSID-TEMP-DISABLED, and the int properties of blocks: single reads of one variable.
- `dpp_channel`: a bounded table of frequencies, which enumeration settles.
- discovery.py and compat.py: probing of the file system and a thin classification of results.
- Logging, and the texts of error messages.
