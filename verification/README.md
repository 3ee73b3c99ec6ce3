# Verified models of wireless tools

Dafny models of four parts of the hostap repository, with proofs of what they promise.

**Frame protection of wlantest** (`hostap/wlantest/tkip.c`, `wep.c`, `ccmp.c`, `gcmp.c`, `bip.c`).
RC4, TKIP key mixing, Michael and TKIP framing are complete and follow sections 12.5.2.3 and 12.5.2.5 of
IEEE Std 802.11-2016; only CRC-32 and the S-box are parameters, and nothing depends on them. For CCMP, GCMP and BIP the cipher
is a parameter with one law, that opening undoes sealing, and the framing around it is modelled: IV, AAD, nonce and MIC element.
Modules `Bytes`, `Arith`, `Ieee80211`, `Rc4`, `Wep`, `TkipMixing`, `TkipTable`, `Michael`, `Tkip`, `Aead`, `Bip`, and
`FrameOctets`, `TkipOctets`, `AeadOctets`, which say octet by octet what they compute.

**The passive tracker of wlantest** (`rx_eapol.c`, `rx_data.c`, `rx_mgmt.c`, `inject.c`). The 4-way handshake with a current and
a tentative pairwise key, receive counters and replay detection, the three-state association machine and the counters of
injected frames, each as a class whose methods are the handlers and as a step function over which runs are studied. EAPOL MIC
checks, key derivation, decryption and element parsing are given with each frame, so the results hold whatever they answer;
MIC elements of management frames are looked up and verified on the octets.
Modules `PacketNumber`, `Inject`, `Replay`, `Assoc`, `Eapol`, and `InjectOctets`, `ReplayOctets`, `AssocOctets` and `EapolKeys`,
which state on octets, bits and primitives what is sent, counted, moved and learned.

**The BSS table of wpa_supplicant** (`hostap/wpa_supplicant/bss.c`). A bounded cache in two lists and a scan array. Memory is an
explicit map from addresses to entries, so that freeing, reallocation and dangling pointers are visible; the allocator chooses
addresses freely among unused ones. Modules `BssTime`, `BssModel` (each operation as a function), `BssTable` (the same
operations as methods), `BssInvariant`, `BssHistory` and `BssRuns` (what every step and every run keeps), `BssEntries` (what
each leaves behind, field by field), `BssWitness` (runs in which an expectation fails) and `DlList` (the circular lists of
`hostap/src/utils/list.h`, link by link).

**The HLR/AuC gateway** (`hostap/hostapd/hlr_auc_gw.c`). 48-bit sequence numbers as in Annex C.3.2 of 3GPP TS 33.102, and the
cyclic cursor over GSM triplets. Modules `Bits`, `Sqn`, `Triplets`.

Imperative code is modelled by methods and classes whose postconditions tie the new state to a function of the old one; the
theorems are lemmas about those functions and about runs, that is, arbitrary sequences of operations or frames.
Octets are `bv8`, words `bv16` and `bv32` with their wrap-around; counters of 32, 48 and 64 bits wrap explicitly.

## What turned out otherwise than expected

- `bip_protect` signs with AES-128-CMAC even for a 32-octet IGTK; verification with the 256-bit CMAC succeeds exactly when the two agree on the frame (`Bip.LongKeyVerifiesIff`).
- TKIP injection keeps one counter per TID, but the packet key does not depend on the TID, so RC4 keys repeat across TIDs (`Inject.SeedRepeatsIff`, `Inject.TwoTidsRepeatSeed`). CCMP nonces do carry the TID and never repeat (`Inject.NoNonceReuse`).
- Eviction of unconfigured entries does not ask whether they are in use, and removal does not clear the pointer to the current BSS: it dangles exactly in the cases of `BssRuns.CurrentDanglesIff`, as in the run `BssWitness.EvictionTakesCurrent`. The model then skips the SSID comparison that would read freed memory.
- The early stop of the flush by age removes less than a full filter would unless stale entries come first (`BssHistory.FlushByAgeExact`, and the run `BssWitness.FlushLeavesStaleEntry`).
- Management packet numbers are stored even after a replay was noted, so the counter falls exactly with the numbers received (`Replay.ManagementFallsIff`, `Replay.ManagementCounterIsLastNumber`).
- The check of unprotected management frames looks at the receiver, while a deauthentication moves its sender, and an unprotected association request replaces the capability the check depends on (`Assoc.UnprotectedDisconnectsIff`, with runs).
- `check_bip` lets a group-addressed frame pass without looking at its MIC when the MMIE names a key id other than 4 and 5 or an IGTK that is not known, or when there is no MMIE and the BSS is not known to be capable. `Assoc.UnvouchedDisconnectsIff` and `Assoc.StaysAssociatedIff` say exactly what this does to a capable station, `Assoc.UnexpectedKeyIdDisconnects` is a run.
- `wlantest_inject_prot_bc` passes a header length without the QoS Control field; a QoS frame then decrypts at that length only if its priority equals the low bits of the packet number octet that takes its place. For a frame that is not data, `wlantest_inject_prot` passes 24 even with both DS bits set; the source address then is read from the IV, and the frame decrypts only if the Michael codes happen to agree (`Tkip.RoundTrip`).
- A WEP data frame stores an uninitialised packet number; the model takes it as an arbitrary value, and counter theorems exclude WEP.
- Stretching a WEP key to 16 octets is RC4 with that key, for every key of a length, only if the length divides 16, which the configured lengths do (`Wep.StretchingFitsExactlyDivisors`).
- Of several preset PTKs that fit, the last one in the list wins, since the loop over them has no exit (`Eapol.Station.DerivePtk`).

## Model

| member | source | states |
|---|---|---|
| `Rc4.WepCrypt` | hostap/wlantest/wep.c:17-43 | RC4 in place on an array: the buffer afterwards is the old one XORed with the keystream of the two-phase state machine |
| `Rc4.MixedInIs` | hostap/wlantest/wep.c:29 | j is added to modulo 256: the sum less 0, 256 or 512 |
| `Rc4.ScheduleByStep` | hostap/wlantest/wep.c:24-31 | S starts as 0 to 255; step n adds S[n] and key octet n to j and swaps places n and j, nothing else |
| `Rc4.NextByStep` | hostap/wlantest/wep.c:37-39 | each output step moves i by one and j by S[i], and swaps the two places, nothing else |
| `Rc4.OutputIsLookup` | hostap/wlantest/wep.c:40 | the output octet is S at the sum of the two octets swapped |
| `Rc4.OutputByStep` | hostap/wlantest/wep.c:33-41 | output octet n comes from step n + 1 after key setup |
| `Rc4.KeyScheduleIsPermutation` | hostap/wlantest/wep.c:24-31 | after every number of key setup swaps, for a key of any length, S is a permutation of 0..255 |
| `Rc4.StateIsPermutation` | hostap/wlantest/wep.c:33-42 | S stays a permutation of 0..255 after key setup and any amount of output |
| `Rc4.PermutationIsOnto` | hostap/wlantest/wep.c:20-42 | such an S holds every octet value, so swapping never loses one |
| `Rc4.CryptInvolution` | hostap/wlantest/wep.c:17-43 | applying RC4 twice with the same key gives back every buffer |
| `Wep.ExpandKey` | hostap/wlantest/wep.c:53-58 | the loop that repeats the key cyclically over 16 octets |
| `Wep.StretchingFitsExactlyDivisors` | hostap/wlantest/wep.c:53-58 | for every key length: the key schedule of the stretched key is that of RC4 keyed directly, for all keys of the length and after every number of steps, exactly when the length divides 16 |
| `Wep.SameStream` | hostap/wlantest/wep.c:46-68 | for key lengths that divide 16, in particular 8 and 16 octets, the stretched key gives the same output as RC4 keyed directly |
| `Wep.TryWep` | hostap/wlantest/wep.c:46-68 | the plaintext buffer is RC4 of the data, and success is equality of the ICV with the CRC of the rest |
| `Wep.WepDecrypt` | hostap/wlantest/wep.c:71-104 | the first configured key that fits decides; too short a frame, or no key that fits, gives nothing |
| `Wep.FitsIff` | hostap/wlantest/wep.c:46-68 | a key fits exactly when the last four octets that RC4 under IV and key uncovers are the CRC of those before them, least significant first |
| `Wep.DecryptedIff` | hostap/wlantest/wep.c:71-104 | for every frame and key list: the plaintext under the first key that fits, and none when no key fits or the frame is too short |
| `Wep.SentFrameIsDecrypted` | hostap/wlantest/wep.c:71-104 | every frame that a 40- or 104-bit WEP sender builds under the n-th key decrypts to its payload unless an earlier key fits its ICV too |
| `TkipMixing.MixPhase1` | hostap/wlantest/tkip.c:108-127 | the eight rounds on array TTAK compute the chained additions of phase 1 |
| `TkipOctets.RoundOnOctets` | hostap/wlantest/tkip.c:119-126 | each round on octets: which two octets of the temporal key go into each of the five words, in even and in odd rounds, and the round number |
| `TkipOctets.InitialOnOctets` | hostap/wlantest/tkip.c:113-117 | the five words phase 1 starts from, on the octets of TSC and address |
| `TkipOctets.Phase1IsEightRounds` | hostap/wlantest/tkip.c:108-127 | phase 1 is the end of a chain of eight such rounds, one after the other, from those words |
| `TkipOctets.SboxPassOnOctets` | hostap/wlantest/tkip.c:143-149 | which of key octets 0 to 11 go into each of the six words |
| `TkipOctets.RotatePassOnOctets` | hostap/wlantest/tkip.c:151-156 | where key octets 12 to 15 and the rotations go |
| `TkipOctets.RotationOfBit` | hostap/wlantest/tkip.c:20-23 | rotation by one, bit by bit |
| `TkipOctets.SeedOnOctets` | hostap/wlantest/tkip.c:158-169 | all 16 octets of the RC4 key, from IV, key octets 0 and 1, and the six words |
| `TkipOctets.Phase2IsTwoPasses` | hostap/wlantest/tkip.c:130-170 | phase 2 is the low TSC brought in, the two passes and that key |
| `TkipOctets.TableOnOctets` | hostap/wlantest/tkip.c:99-105 | the substitution is the table at the low octet, XORed with the exchanged octets of the table at the high one |
| `TkipMixing.SboxPass` | hostap/wlantest/tkip.c:143-149 | the six S-box steps on array PPK are one chained addition |
| `TkipMixing.RotatePass` | hostap/wlantest/tkip.c:151-156 | the six rotation steps on array PPK are one chained addition |
| `TkipMixing.MixPhase2` | hostap/wlantest/tkip.c:130-170 | the seed array ends up as phase 2 of TTAK and the low TSC |
| `TkipMixing.ChainInjective` | hostap/wlantest/tkip.c:119-126 | chained addition, in which each step reads a word it does not change, can be undone last step first |
| `TkipMixing.RoundsInjective` | hostap/wlantest/tkip.c:119-126 | any number of phase 1 rounds is injective for every S-box |
| `TkipMixing.Phase1Injective` | hostap/wlantest/tkip.c:108-127 | all 80 bits of transmitter address and high TSC survive phase 1 |
| `TkipMixing.MixedInjective` | hostap/wlantest/tkip.c:136-156 | both mixing passes of phase 2 are injective in TTAK and the low TSC |
| `TkipMixing.SeedCarriesMixedBits` | hostap/wlantest/tkip.c:158-169 | octets 4 to 15 of the seed determine all 96 mixed bits |
| `TkipMixing.PacketKeyInjective` | hostap/wlantest/tkip.c:108-170 | distinct pairs of transmitter address and 48-bit TSC give RC4 keys that differ in octets 4 to 15, for every temporal key and every S-box |
| `Michael.MichaelMic` | hostap/wlantest/tkip.c:204-253 | unrolled header, word loop and four-way tail compute the fold of the block function over the padded message |
| `Michael.TailWordIsPaddedWord` | hostap/wlantest/tkip.c:231-249 | what the switch XORs in for the last 0 to 3 octets is the word of the message padded with 0x5a and zeros; one zero word follows |
| `Michael.FoldTail` | hostap/wlantest/tkip.c:231-249 | folding the padded message ends with the tail word and one more block |
| `TkipOctets.RotationsOfBit` | hostap/wlantest/tkip.c:173-182 | the rotations by 17, 3 and -2 places, bit by bit |
| `TkipOctets.XSwapOnOctets` | hostap/wlantest/tkip.c:185-188 | the octets of each half of a word are exchanged |
| `TkipOctets.BlockOf` | hostap/wlantest/tkip.c:191-201 | the four half rounds and their rotations, in order |
| `TkipOctets.KnownCodes` | hostap/wlantest/tkip.c:204-253 | two known codes of short messages come out |
| `Michael.BlockInjective` | hostap/wlantest/tkip.c:191-201 | the block function is injective |
| `Michael.FoldDeterminesWord` | hostap/wlantest/tkip.c:204-253 | messages that differ in a single word never give the same state |
| `Michael.MicDeterminesPriority` | hostap/wlantest/tkip.c:204-253 | pseudo headers that differ in the priority never give the same code |
| `Michael.MicDeterminesKey` | hostap/wlantest/tkip.c:204-253 | two different Michael keys never give the same code on the same message |
| `Tkip.MichaelMicHdr` | hostap/wlantest/tkip.c:256-289 | DA, SA and priority picked by the DS bits and the QoS subtype |
| `TkipOctets.PseudoHeaderOnOctets` | hostap/wlantest/tkip.c:256-289 | for each combination of DS bits, which octets of the frame are destination, source and priority |
| `TkipOctets.MicKeyOnOctets` | hostap/wlantest/tkip.c:348 | key octets 16 to 23 for frames from the DS, 24 to 31 for the others |
| `TkipOctets.CodeIs` | hostap/wlantest/tkip.c:395-397 | the code is that of pseudo header and payload under that key |
| `TkipOctets.EncryptedOnOctets` | hostap/wlantest/tkip.c:376-428 | every octet of a protected frame: header, IV, then payload, code and CRC under RC4 with the packet key |
| `Tkip.TkipEncrypt` | hostap/wlantest/tkip.c:376-428 | fails exactly on frames shorter than a header, and otherwise sends header, IV and RC4 of payload, MIC and ICV |
| `Tkip.TkipDecrypt` | hostap/wlantest/tkip.c:292-362 | the checks of length, ICV and MIC in their order, on what RC4 uncovers |
| `Tkip.DecryptsExactlyProtected` | hostap/wlantest/tkip.c:292-362 | decryption returns a payload if and only if RC4 uncovers exactly that payload, its MIC and its ICV |
| `Tkip.RoundTrip` | hostap/wlantest/tkip.c:292-428 | for every key, packet number, payload and header length: the packet number read from the frame is the one sent, and decryption returns the payload if and only if the Michael codes of the sent and the given header agree; when the addresses are covered, that is if and only if the receiver reads the priority that was sent, and always when the whole header is covered |
| `TkipTable.PacketKeysOfTkip` | hostap/wlantest/tkip.c:61-170 | with the S-box table of the source: RC4 keys are equal if and only if transmitter and 48-bit TSC are |
| `TkipTable.RoundTripOfTkip` | hostap/wlantest/tkip.c:61-428 | with that table and any CRC, a frame whose header is covered decrypts to its payload |
| `Aead.AadNonce` | hostap/wlantest/ccmp.c:18-77 | the moving pointers fill AAD and nonce with the masked header fields, for CCMP and GCMP |
| `Aead.Encrypt` | hostap/wlantest/ccmp.c:190-235 | header, IV with PN and key id, ciphertext and MIC; nothing when the frame is shorter than its header or the cipher fails |
| `Aead.Decrypt` | hostap/wlantest/ccmp.c:138-176 | splits IV, ciphertext and MIC and opens them; too short a frame gives nothing |
| `Aead.RoundTrip` | hostap/wlantest/ccmp.c:138-235 | under CCMP, CCMP-256 and GCMP every frame that is encrypted decrypts to its payload and shows its packet number |
| `AeadOctets.AadOnOctets` | hostap/wlantest/ccmp.c:18-69 | the AAD octet by octet, for every frame layout; the same for GCMP but for the Protected bit |
| `AeadOctets.NonceOnOctets` | hostap/wlantest/ccmp.c:70-76 | the nonce octet by octet for CCMP and GCMP |
| `AeadOctets.EncryptedOnOctets` | hostap/wlantest/ccmp.c:190-235 | header, IV octets, and the arguments and output of the cipher in a protected frame |
| `AeadOctets.DecryptedOnOctets` | hostap/wlantest/ccmp.c:138-176 | how a received frame is split, for the authentication length of each suite |
| `Aead.AadIsExactlyTheseFields` | hostap/wlantest/ccmp.c:25-68 | two frames have the same AAD if and only if masked Frame Control, A1 to A3, fragment number, A4 and masked QoS Control are the same |
| `Aead.MutableBitsAreNotAuthenticated` | hostap/wlantest/gcmp.c:18-72 | AAD and nonce do not change with Retry, PwrMgt, MoreData, Duration or the sequence number |
| `Bip.BipProtect` | hostap/wlantest/bip.c:17-67 | the frame with its MIC element, signed over masked header and body with a zeroed MIC |
| `Bip.BipGmacProtect` | hostap/wlantest/bip.c:70-133 | the same with GMAC, its nonce made of A2 and the packet number |
| `Bip.CheckMmieMic` | hostap/wlantest/rx_mgmt.c:1080-1151 | rebuilds what was signed and compares the MIC under the group management cipher |
| `AeadOctets.AuthenticatedOnOctets` | hostap/wlantest/bip.c:42-53 | what BIP signs: masked Frame Control, three addresses, body |
| `AeadOctets.BipProtectedOnOctets` | hostap/wlantest/bip.c:17-67 | the element octet by octet, and the code over it with zeros in its place |
| `AeadOctets.GmacProtectedOnOctets` | hostap/wlantest/bip.c:70-128 | the same for GMAC, with its nonce of transmitter and packet number |
| `AeadOctets.MmieValidOnOctets` | hostap/wlantest/rx_mgmt.c:1080-1151 | which MAC over which octets the last 8 or 16 octets are compared with |
| `Bip.RebuildsSignedOctets` | hostap/wlantest/rx_mgmt.c:1101-1124 | the verifier recovers exactly the signed octets, the MIC and the packet number, for both MIC lengths |
| `Bip.CmacProtectedVerifies` | hostap/wlantest/bip.c:17-67 | every frame protected with a 16-octet IGTK passes verification under AES-128-CMAC |
| `Bip.GmacProtectedVerifies` | hostap/wlantest/bip.c:70-133 | every frame protected with GMAC passes verification under either GMAC cipher |
| `Bip.LongKeyVerifiesIff` | hostap/wlantest/bip.c:54-62 | a frame protected with a 32-octet IGTK verifies under AES-256-CMAC if and only if the two CMACs agree on the signed octets |
| `Bip.ProtectedVerifiesIffShortKey` | hostap/wlantest/bip.c:54-62 | so verification under the CMAC cipher of the key length holds whatever the MACs are exactly for 16-octet keys |
| `PacketNumber.CompareIsNumericOrder` | hostap/wlantest/rx_data.c:425 | memcmp of equally long arrays is the order of the big-endian numbers they stand for |
| `PacketNumber.IncByteArray` | hostap/src/utils/common.c:221-230 | ripple-carry increment in place |
| `PacketNumber.IncrementedValue` | hostap/src/utils/common.c:221-230 | it adds one, and wraps to zero from the largest number of its length |
| `PacketNumber.RepeatsOnlyAfterCycle` | hostap/wlantest/inject.c:243 | two values of a 48-bit counter are equal if and only if a multiple of 2^48 increments lies between them |
| `Inject.Injector.Inject` | hostap/wlantest/inject.c:158-270 | key, counter and header length by frame type, sender, TID and TDLS link; the chosen counter, and no other, is incremented before use |
| `Inject.Injector.InjectBip` | hostap/wlantest/inject.c:81-107 | a group management frame uses the next packet number of the current IGTK, and nothing is sent without one |
| `Inject.Injector.InjectProtBc` | hostap/wlantest/inject.c:110-155 | a group data frame uses the next packet number of the current GTK, and nothing is sent without one |
| `Inject.TidAndLength` | hostap/wlantest/inject.c:222-233 | counter index and header length by frame type, DS bits and QoS subtype |
| `InjectOctets.IndexIs` | hostap/wlantest/inject.c:222-233 | counter index and header length on the octets of the frame |
| `InjectOctets.GroupFrames` | hostap/wlantest/inject.c:81-155 | key, counter and header length of every group-addressed frame |
| `InjectOctets.StationFrames` | hostap/wlantest/inject.c:207-257 | key, counter by direction, header length and cipher of every frame for a station |
| `InjectOctets.StrangersAreRefused` | hostap/wlantest/inject.c:172-193 | direct frames of other BSSes or unknown stations are refused |
| `InjectOctets.LinkFrames` | hostap/wlantest/inject.c:180-257 | with a TDLS link between transmitter and receiver: its key and the counter of the side that transmits |
| `InjectOctets.DirectFrames` | hostap/wlantest/inject.c:172-257 | without a link a direct frame is treated as one for its transmitter |
| `InjectOctets.UsesNextNumber` | hostap/wlantest/inject.c:243 | the number used is the next one of the counter, modulo 2^48, and no other counter changes |
| `Inject.FlagsAreTid` | hostap/wlantest/inject.c:222-233 | the counter index is the flags octet of the CCMP nonce: 16 for management, the priority for QoS data, else 0 |
| `Inject.SameCounter` | hostap/wlantest/inject.c:234-243 | under one real key, the same transmitter and index always mean the same counter |
| `Inject.FreshPerCounter` | hostap/wlantest/inject.c:243 | a counter used at most 2^48 times never shows a number twice |
| `Inject.NoNonceReuse` | hostap/wlantest/inject.c:222-257 | in every run of injections with at most 2^48 frames per counter, no two CCMP frames under the same real key have the same nonce |
| `Inject.NoIpnReuse` | hostap/wlantest/inject.c:92-98 | nor do two BIP frames of such a run carry the same packet number |
| `Inject.SeedRepeatsIff` | hostap/wlantest/inject.c:234-253 | two TKIP frames of a run get the same RC4 key if and only if transmitter and place in the counter cycle agree, whatever their TIDs |
| `Inject.TidsShareSeeds` | hostap/wlantest/inject.c:239-253 | so the k-th TKIP frames of a transmitter on two TIDs share an RC4 key, for every k |
| `Inject.TwoTidsRepeatSeed` | hostap/wlantest/inject.c:239-253 | a run of two QoS frames, on TID 0 and TID 1, in which this happens for every temporal key and S-box |
| `Replay.Tracker.Choose` | hostap/wlantest/rx_data.c:273-416 | the counter of a unicast frame: of its station and direction, or of its TDLS link and side, by TID |
| `Replay.Tracker.RxDataProt` | hostap/wlantest/rx_data.c:354-485 | with that counter: a decrypted frame is accepted and stored exactly when its number exceeds the counter |
| `Replay.Tracker.RxDataProtGroup` | hostap/wlantest/rx_data.c:154-245 | the same for group frames and the counter of their BSS and key id, including unknown keys and missing ExtIV |
| `Replay.StepRaisesOnly` | hostap/wlantest/rx_data.c:482-483 | a data counter that is neither reset nor touched by WEP changes only to a larger, accepted number; frames of other stations, links and BSSes leave it alone |
| `Replay.AcceptedStrictlyIncrease` | hostap/wlantest/rx_data.c:402-439 | in every run, between two resets of a counter the numbers of accepted frames of that station, link or BSS strictly increase per direction and TID, so none is accepted twice |
| `Replay.AcceptedIffLargest` | hostap/wlantest/rx_data.c:425-438 | a decrypted frame is accepted if and only if its number exceeds the last reset value of its counter and every number accepted there since |
| `Replay.StationsCountApart` | hostap/wlantest/rx_data.c:402-416 | whether a frame of one station to an AP is accepted does not depend on a frame of another one to the same AP |
| `ReplayOctets.CounterOnOctets` | hostap/wlantest/rx_data.c:273-416 | the counter of a unicast frame from DS bits, addresses and the low four bits of its QoS Control field |
| `ReplayOctets.PrioritiesCountApart` | hostap/wlantest/rx_data.c:389-416 | whether a frame is accepted never depends on one whose priority differs |
| `ReplayOctets.DirectionsCountApart` | hostap/wlantest/rx_data.c:407-416 | nor on one in the other DS direction |
| `ReplayOctets.LinkSidesCountApart` | hostap/wlantest/rx_data.c:402-406 | nor do the two sides of a TDLS link, or the link and the path over the AP, depend on each other |
| `ReplayOctets.OtherStationsCountApart` | hostap/wlantest/rx_data.c:273-306 | nor two stations, in either direction |
| `ReplayOctets.NumberOnlyOnce` | hostap/wlantest/rx_data.c:425-483 | on one path, after an accepted frame none with the same or a smaller number is accepted |
| `ReplayOctets.LargerNumberAccepted` | hostap/wlantest/rx_data.c:425-483 | and every one with a larger number is, if it decrypts |
| `ReplayOctets.SamePathIncreases` | hostap/wlantest/rx_data.c:402-483 | over every run the accepted numbers of a path strictly increase until its counter is reset |
| `ReplayOctets.NumberOnOctets` | hostap/wlantest/rx_data.c:419-424 | which IV octets are the packet number, for TKIP, for the other ciphers and on TDLS links |
| `ReplayOctets.CountsOnOctets` | hostap/wlantest/rx_data.c:347-361 | which frames count: decrypted, with an IV, marked as extended for TKIP and CCMP |
| `ReplayOctets.GroupOnOctets` | hostap/wlantest/rx_data.c:154-203 | BSS, key id and packet number of a group frame, and which ones count |
| `ReplayOctets.GroupKeysCountApart` | hostap/wlantest/rx_data.c:190-203 | other BSSes and other key ids are judged independently |
| `ReplayOctets.PairwiseKeyResets` | hostap/wlantest/rx_eapol.c:164-165 | a new pairwise key zeroes all counters of its station and no other |
| `ReplayOctets.ManagementOnOctets` | hostap/wlantest/rx_mgmt.c:1254-1292 | station and direction whose index 16 a management frame counts under |
| `Replay.ManagementFallsIff` | hostap/wlantest/rx_mgmt.c:1294-1311 | a management counter of a station falls if and only if a frame is decrypted there whose number compares as smaller, which the test only notes as a replay |
| `Replay.ManagementCounterIsLastNumber` | hostap/wlantest/rx_mgmt.c:1254-1311 | over every stretch of a run without a new PTK of the station it is the number of the last management frame decrypted in that direction, and never falls exactly when those numbers never decrease |
| `Replay.ManagementCounterCanFall` | hostap/wlantest/rx_mgmt.c:1294-1311 | for every station, direction and two numbers a run in which it falls |
| `Assoc.Monitor.RxMgmt` | hostap/wlantest/rx_mgmt.c:1365-1459 | judges a frame and moves stations by subtype, also after broadcast frames; beacons change the BSS |
| `Assoc.Monitor.CheckBip` | hostap/wlantest/rx_mgmt.c:1154-1241 | group-addressed robust frames, from the octets: passes without an MMIE unless the BSS is capable, with a key id other than 4 and 5, with an unknown IGTK, and else exactly when the MIC verifies |
| `Assoc.Monitor.CheckMgmtCcmp` | hostap/wlantest/rx_mgmt.c:1326-1362 | unprotected robust frames: refused exactly when the station looked up is capable and in state 3, or it is a protected kind of Action frame |
| `Assoc.Monitor.RxMgmtBeacon` | hostap/wlantest/rx_mgmt.c:54-113 | stores capability and group management cipher of the BSS, no cipher without RSN and protection |
| `Assoc.Monitor.RxMgmtAuth` | hostap/wlantest/rx_mgmt.c:165-213 | open authentication moves its station from state 1 to state 2 |
| `Assoc.Monitor.DeauthAllStas` | hostap/wlantest/rx_mgmt.c:216-227 | the loop puts every station of that BSS, and no other, into state 1 |
| `Assoc.Monitor.DisassocAllStas` | hostap/wlantest/rx_mgmt.c:839-850 | the loop moves the stations of that BSS that are in state 3 to state 2 |
| `Assoc.Monitor.RxMgmtDeauth` | hostap/wlantest/rx_mgmt.c:245-312 | unicast and broadcast deauthentication, valid or not |
| `Assoc.Monitor.RxMgmtDisassoc` | hostap/wlantest/rx_mgmt.c:853-928 | unicast and broadcast disassociation, valid or not |
| `Assoc.Monitor.RxAssocResp` | hostap/wlantest/rx_mgmt.c:566-668 | a successful (re)association response associates its destination from any state |
| `Assoc.Monitor.RxAssocReq` | hostap/wlantest/rx_mgmt.c:439-504 | an (re)association request that parses sets the protection capability of its sender, in any state |
| `Assoc.Monitor.RxEapolKey2Of4` | hostap/wlantest/rx_eapol.c:289-345 | message 2 of the handshake with another element sets the capability of its sender too |
| `Assoc.Monitor.LearnIgtk` | hostap/wlantest/rx_eapol.c:495-548 | an IGTK of 16 or 32 octets with an id up to 5 becomes known in its BSS |
| `Assoc.StepOnStation` | hostap/wlantest/rx_mgmt.c:165-928 | the effect of one event on the state of one station, for every kind of frame |
| `AssocOctets.KindByOctet` | hostap/wlantest/rx_mgmt.c:1376-1379 | the kind of a frame from the upper half of octet 0, protected or not from octet 1 |
| `AssocOctets.AssociatesIff` | hostap/wlantest/rx_mgmt.c:566-668 | the associations of a run on octets: the status in octets 26 and 27 |
| `AssocOctets.AuthenticatesIff` | hostap/wlantest/rx_mgmt.c:165-207 | the authentications of a run on octets 24 to 29 |
| `AssocOctets.DisconnectsIff` | hostap/wlantest/rx_mgmt.c:245-312 | the deauthentications and disassociations of a run on octets |
| `AssocOctets.PassesBipIff` | hostap/wlantest/rx_mgmt.c:1154-1241 | what the BIP check looks at in the last octets of the frame |
| `AssocOctets.JudgedIff` | hostap/wlantest/rx_mgmt.c:1365-1420 | validity of every frame on its octets |
| `AssocOctets.StateOnOctets` | hostap/wlantest/rx_mgmt.c:165-928 | the effect of every frame on every station on octets, and that nothing else moves it |
| `AssocOctets.StatusDecides` | hostap/wlantest/rx_mgmt.c:594-657 | an association response of at least 30 octets associates exactly when the status octets are zero, whatever the others are |
| `AssocOctets.CapabilityOnOctets` | hostap/wlantest/rx_mgmt.c:439-504 | which requests set the capability, on octets |
| `AssocOctets.BssOnOctets` | hostap/wlantest/rx_mgmt.c:54-113 | which beacons and probe responses change a BSS, and how |
| `AssocOctets.OtherEventsStore` | hostap/wlantest/rx_eapol.c:289-548 | what message 2 and an IGTK change, and that they change nothing else |
| `Assoc.StateIsHistory` | hostap/wlantest/rx_mgmt.c:165-928 | over every run: state 3 exactly when a successful (re)association response is later than every valid deauth and disassoc covering the station, state 1 exactly when no successful open authentication or (re)association response follows the last valid deauth |
| `Assoc.InvalidChangesNothing` | hostap/wlantest/rx_mgmt.c:275-304 | a frame judged invalid changes the state of no station |
| `Assoc.CapabilityIsLastDeclared` | hostap/wlantest/sta.c:64-145 | over every run a station counts as capable of management frame protection exactly when it declared so in its last request or message 2 that was taken over |
| `Assoc.UnvouchedDisconnectsIff` | hostap/wlantest/rx_mgmt.c:1154-1362 | every frame without a verified MIC and without CCMP decryption, unicast or group-addressed: it takes a capable station out of state 3 if and only if it is a deauth or disassoc covering the station that BIP passes without looking at a MIC, or whose receiver is not the protected station |
| `Assoc.UnprotectedDisconnectsIff` | hostap/wlantest/rx_mgmt.c:1326-1362 | an unprotected unicast frame takes a capable station out of state 3 if and only if it is a deauth or disassoc from the station to an address that is neither the AP nor itself capable and associated |
| `Assoc.StaysAssociatedIff` | hostap/wlantest/rx_mgmt.c:1365-1459 | over every stretch of a run in which it does not withdraw its capability, a capable station stays in state 3 exactly when no deauth or disassoc covering it has a verified MIC or was decrypted, or slips through in one of those two ways |
| `Assoc.DeauthToThirdPartyDisconnects` | hostap/wlantest/rx_mgmt.c:1345-1353 | a run in which an unprotected deauthentication to a third address disconnects a capable station |
| `Assoc.RequestWithdrawsProtection` | hostap/wlantest/rx_mgmt.c:1352 | a run in which an unprotected request without the capability makes a plain deauthentication valid |
| `Assoc.UnexpectedKeyIdDisconnects` | hostap/wlantest/rx_mgmt.c:1199-1204 | a run in which a 44-octet broadcast deauthentication whose MMIE names key id 6, with any MIC, disconnects a capable station of a capable BSS whose IGTK is known |
| `Eapol.Station.TryPmk` | hostap/wlantest/rx_eapol.c:95-167 | installs or keeps as tentative the PTK of one PMK when the MIC verifies |
| `Eapol.Station.DerivePtk` | hostap/wlantest/rx_eapol.c:170-220 | PMKs of the BSS, then all others, then, without a PTK, the preset ones of which the last that fits wins |
| `Eapol.Station.Key2Of4` | hostap/wlantest/rx_eapol.c:223-346 | message 2: new SNonce, derivation, key management taken over only after a valid MIC |
| `Eapol.Station.LearnKdeKeys` | hostap/wlantest/rx_eapol.c:440-549 | group keys with their counters, in byte-reversed order, and the copy the station keeps, from the key data |
| `Eapol.Station.LearnGtk` | hostap/wlantest/rx_eapol.c:461-493 | a GTK of 0 to 32 octets, its counter, its id and the copy of the station; other lengths change nothing |
| `Eapol.Station.LearnIgtk` | hostap/wlantest/rx_eapol.c:495-548 | an IGTK of 16 or 32 octets with an id up to 5 and its packet number; anything else changes nothing |
| `Eapol.Station.Key3Of4` | hostap/wlantest/rx_eapol.c:552-725 | message 3: a changed ANonce derives again; group keys are learned only under a valid MIC |
| `Eapol.Station.Key4Of4` | hostap/wlantest/rx_eapol.c:728-784 | message 4: the tentative key becomes current and both counter tables are zeroed |
| `Eapol.Station.Key1Of2` | hostap/wlantest/rx_eapol.c:787-912 | group message 1, for RSN and for WPA |
| `Eapol.Station.RxEapolKey` | hostap/wlantest/rx_eapol.c:1101-1166 | dispatch by Key Information to the handlers |
| `Eapol.StepOnKeys` | hostap/wlantest/rx_eapol.c:756-783 | the four things one frame can do to the pairwise keys and counters, and under which MIC |
| `EapolKeys.MessageByBits` | hostap/wlantest/rx_eapol.c:1101-1166 | each handshake message by masks of the Key Information field |
| `EapolKeys.NoncesAreThoseSentLast` | hostap/wlantest/rx_eapol.c:223-260 | over every run the nonces held are that of the last message 1 or 3 and that of the last message 2 |
| `EapolKeys.FirstFittingPmkIsLearned` | hostap/wlantest/rx_eapol.c:95-190 | over every run a message 2, or a message 3 with another ANonce, learns the PTK of the first PMK whose PTK exists and verifies the MIC: current with zeroed tables if there was none, else tentative |
| `EapolKeys.LastFittingPresetIsLearned` | hostap/wlantest/rx_eapol.c:190-216 | when no PMK fits and there is no PTK, the last preset PTK that verifies the MIC becomes current |
| `EapolKeys.NothingFitsNothingLearned` | hostap/wlantest/rx_eapol.c:170-220 | otherwise keys and tables stay as they are |
| `EapolKeys.Message4Installs` | hostap/wlantest/rx_eapol.c:756-783 | a message 4 that verifies under the tentative PTK makes it current and zeroes both tables, any other changes nothing |
| `EapolKeys.OtherFramesKeepKeys` | hostap/wlantest/rx_eapol.c:1101-1166 | no other frame changes a pairwise key or counter |
| `EapolKeys.KeyMgmtFollowsMessage2` | hostap/wlantest/rx_eapol.c:272-345 | key management changes by a verified message 2 with an element, and only so |
| `EapolKeys.Message3StoresGroupKeys` | hostap/wlantest/rx_eapol.c:594-725 | a message 3 stores its group keys, octet by octet, exactly when its MIC verifies and its key data can be read |
| `EapolKeys.GroupMessageStoresKeys` | hostap/wlantest/rx_eapol.c:813-912 | the same for group messages, in RSN and in WPA, under the current key only |
| `EapolKeys.OtherFramesKeepGroupKeys` | hostap/wlantest/rx_eapol.c:1101-1166 | no other frame changes a group key |
| `Eapol.TentativeImpliesCurrent` | hostap/wlantest/rx_eapol.c:142-166 | over every run a tentative PTK is only held beside a current one |
| `Eapol.ReplacedOnlyByMessage4` | hostap/wlantest/rx_eapol.c:756-783 | over every run an installed PTK is replaced only by a message 4 that verifies under the tentative PTK, and that step zeroes both counter tables |
| `Eapol.CountersResetOnlyWithKey` | hostap/wlantest/rx_eapol.c:158-166 | over every run the counter tables change only to zero, and only when a key is installed |
| `Eapol.InstalledKeysAreVouched` | hostap/wlantest/rx_eapol.c:95-220 | over every run each PTK ever current or tentative verified the MIC of some message 2 or 3 of that run |
| `Eapol.GroupKeysNeedMic` | hostap/wlantest/rx_eapol.c:594-639 | group keys change only by a message whose MIC verifies under a pairwise key |
| `Eapol.GroupTablesStayInRange` | hostap/wlantest/rx_eapol.c:440-549 | over every run key ids stay inside tables of four and six entries, and every key has its counter |
| `BssTime.CalculateUpdateTime` | hostap/wpa_supplicant/bss.c:276-291 | exact subtraction in microseconds, normalised if the fetch time is |
| `BssTime.BeforeIsNumeric` | hostap/src/utils/os.h:69-74 | comparing seconds, then microseconds, is comparing microseconds in all |
| `BssTable.BssTable.Remove` | hostap/wpa_supplicant/bss.c:223-249 | unlinks the entry from both lists and the scan array, clears the pending connection, keeps the table consistent |
| `BssTable.BssTable.Get` | hostap/wpa_supplicant/bss.c:260-273 | the first entry with the key, or none when the filter rejects the address |
| `BssTable.BssTable.RemoveOldest` | hostap/wpa_supplicant/bss.c:387-425 | first entry neither configured nor a WPS candidate, else the first not in use |
| `BssTable.BssTable.Add` | hostap/wpa_supplicant/bss.c:428-465 | a new entry at the end of both lists after making room |
| `BssTable.BssTable.Update` | hostap/wpa_supplicant/bss.c:598-702 | ignores a worse result of the same round, else refreshes the entry and moves it to the end |
| `BssTable.BssTable.Grow` | hostap/wpa_supplicant/bss.c:670-694 | reallocation: a moved entry takes its old place in the id list and every pointer to it follows; a failed one stays linked with its old elements |
| `DlList.List.Add` | hostap/src/utils/list.h:28-34 | the four link assignments put an item behind a node of the circular list |
| `DlList.List.AddTail` | hostap/src/utils/list.h:36-39 | and at the end of the list |
| `DlList.List.Del` | hostap/src/utils/list.h:41-47 | the link assignments drop the item and leave it without links |
| `DlList.List.Elements` | hostap/src/utils/list.h:78-81 | following the links from the head meets the nodes of the list in order and ends |
| `DlList.List.ForEachSafe` | hostap/src/utils/list.h:83-87 | the loop that may delete and free the current node: the saved next node is still linked, every node of the old list is met once and in order up to the first that ends the loop, and what is left is the list without the deleted ones |
| `DlList.List.Relocate` | hostap/wpa_supplicant/bss.c:672-693 | unlinking, moving and linking again behind the old predecessor puts the new address in the place of the old one |
| `DlList.MovingLinkedNodeBreaksList` | hostap/wpa_supplicant/bss.c:672-674 | if the memory of a node moved while it is linked, the links from the head would form no list |
| `BssTable.BssTable.UpdateStart` | hostap/wpa_supplicant/bss.c:714-720 | next round index, empty scan array |
| `BssTable.BssTable.UpdateScanRes` | hostap/wpa_supplicant/bss.c:733-827 | skipping rules, lookup, add or update, and listing once in a growing array; the table stays consistent |
| `BssTable.BssTable.UpdateEnd` | hostap/wpa_supplicant/bss.c:881-905 | after a completed new scan, ages and expires the entries it covered; the table stays consistent |
| `BssTable.BssTable.FlushByAge` | hostap/wpa_supplicant/bss.c:915-935 | removes idle entries older than the limit up to the first fresh one; the table stays consistent |
| `BssTable.BssTable.Flush` | hostap/wpa_supplicant/bss.c:958-972 | removes every idle entry; the table stays consistent |
| `BssTable.BssTable.GetBssidLatest` | hostap/wpa_supplicant/bss.c:1016-1030 | of the entries with that BSSID one that none was updated after; none when there is none or the filter rejects it |
| `BssTable.BssTable.GetId` | hostap/wpa_supplicant/bss.c:1062-1070 | an entry with that id, or none exactly when there is none |
| `BssTable.BssTable.GetIdRange` | hostap/wpa_supplicant/bss.c:1084-1093 | the entry with the smallest id in the range, or none exactly when no id is in it |
| `BssInvariant.UpdatedInv` | hostap/wpa_supplicant/bss.c:598-702 | an update keeps the lists consistent even when the entry moves in memory |
| `BssInvariant.StepInv` | hostap/wpa_supplicant/bss.c:223-972 | every operation keeps the lists consistent; keys stay unique if the filter accepts the result, ids ordered unless they wrap |
| `BssInvariant.RunInv` | hostap/wpa_supplicant/bss.c:223-972 | over every run both lists hold exactly the live entries, the count is theirs, and the scan array and the pending connection have no duplicate and no dangling pointer |
| `BssInvariant.RunKeysUnique` | hostap/wpa_supplicant/bss.c:792-796 | over every run in which the filter accepts each result, no two entries share BSSID and SSID |
| `BssInvariant.RunIdsIncrease` | hostap/wpa_supplicant/bss.c:438-457 | over every run with fewer than 2^32 results, ids strictly increase along the id list |
| `BssHistory.FlushedOldSweeps` | hostap/wpa_supplicant/bss.c:926-934 | an entry is removed exactly when it is idle, stale and behind no fresh idle entry |
| `BssHistory.FlushByAgeExact` | hostap/wpa_supplicant/bss.c:915-935 | stopping at the first fresh entry removes what a full filter would if and only if the stale idle entries come first |
| `BssHistory.SortedFlushIsFull` | hostap/wpa_supplicant/bss.c:915-935 | which holds on every list sorted by update time |
| `BssHistory.StepWrites` | hostap/wpa_supplicant/bss.c:598-827 | every operation but the end of a round changes at most one entry, which holds the result and goes last |
| `BssHistory.ExpiredAges` | hostap/wpa_supplicant/bss.c:890-901 | at the end of a round each entry ages by the table as it was when the round ended, although the loop removes entries as it goes |
| `BssEntries.StoredUnderName` | hostap/wpa_supplicant/bss.c:741-790 | which results are skipped, and under which SSID or mesh id the others are stored |
| `BssEntries.SkippedChangesNothing` | hostap/wpa_supplicant/bss.c:741-790 | a skipped result changes nothing |
| `BssEntries.FoundFirst` | hostap/wpa_supplicant/bss.c:260-273 | a result is for the first entry with its BSSID and name |
| `BssEntries.ResultAdds` | hostap/wpa_supplicant/bss.c:428-465 | the whole entry that a result for a new BSS adds, where it goes, the next id, and that only a victim goes, from a full table |
| `BssEntries.ResultStays` | hostap/wpa_supplicant/bss.c:604-637 | exactly which results of a round leave an entry as it is, and that only the scan array changes |
| `BssEntries.ResultRewrites` | hostap/wpa_supplicant/bss.c:640-702 | the whole entry that any other result leaves, information elements included, its address, its place in the lists, and every pointer to it |
| `BssEntries.ScanArrayGrows` | hostap/wpa_supplicant/bss.c:812-826 | room for 32 at first, doubled when full |
| `BssEntries.StartBegins` | hostap/wpa_supplicant/bss.c:714-720 | a round begins with the next index modulo 2^32 and an empty scan array |
| `BssEntries.InUseIff` | hostap/wpa_supplicant/bss.c:370-384 | which entries are in use |
| `BssEntries.EvictableIff` | hostap/wpa_supplicant/bss.c:354-395 | which entries may be evicted first |
| `BssEntries.IncludedIff` | hostap/wpa_supplicant/bss.c:830-868 | which entries a scan covers |
| `BssEntries.FlushLeavesInUse` | hostap/wpa_supplicant/bss.c:958-972 | a flush leaves exactly the entries in use |
| `BssRuns.ListIsInWritingOrder` | hostap/wpa_supplicant/bss.c:648-697 | over every run the list is in the order in which its entries were last added or refreshed |
| `BssRuns.EntryIsLastWritten` | hostap/wpa_supplicant/bss.c:294-310 | over every run each entry holds key, radio data and time of the result that last wrote it, and its elements unless they would lose P2P or found no memory |
| `BssRuns.RunIsSorted` | hostap/wpa_supplicant/bss.c:276-310 | over every run with results in order of update time, the list is sorted by update time |
| `BssRuns.RunFlushIsFull` | hostap/wpa_supplicant/bss.c:915-935 | over such runs flushing by age removes exactly the stale entries not in use |
| `BssRuns.VictimIsLeastRecent` | hostap/wpa_supplicant/bss.c:387-425 | over every run the victim is the least recently written entry neither configured nor a WPS candidate, else the least recently written one not in use; none exactly when all are needed |
| `BssRuns.StepCapacity` | hostap/wpa_supplicant/bss.c:448-458 | no operation exceeds the limit; it is raised, by one, only when the table is full and every entry is in use and configured or a WPS candidate |
| `BssRuns.RunStaysWithinLimit` | hostap/wpa_supplicant/bss.c:448-458 | over every run the number of entries stays within the limit |
| `BssRuns.CurrentDanglesIff` | hostap/wpa_supplicant/bss.c:223-249 | the pointer to the current BSS dangles after an operation if and only if that removed it explicitly or evicted it as first entry neither configured nor a WPS candidate |
| `BssWitness.EvictionTakesCurrent` | hostap/wpa_supplicant/bss.c:391-395 | a run of four operations at whose end the current BSS has been evicted and its pointer dangles |
| `BssWitness.FlushLeavesStaleEntry` | hostap/wpa_supplicant/bss.c:926-934 | a run with results out of order after which a flush by age leaves a stale idle entry |
| `BssRuns.RunRoundInv` | hostap/wpa_supplicant/bss.c:604-645 | over every run with fewer than 2^32 rounds, an entry seen in the current round has miss count 0 |
| `BssRuns.RoundOfEntryIsHistory` | hostap/wpa_supplicant/bss.c:604-645 | over every run the round index in an entry is the number of rounds begun up to its last sighting |
| `BssRuns.MissIsHistory` | hostap/wpa_supplicant/bss.c:895-896 | so what the code reads off the entry at the end of a round is whether a round has begun since its last sighting |
| `BssRuns.MissCountIsMisses` | hostap/wpa_supplicant/bss.c:644-645 | over every run the miss count of an entry is the number of completed new scans since its last sighting that covered it while not in use |
| `BssRuns.ExpiresAtLastMiss` | hostap/wpa_supplicant/bss.c:890-901 | with a fixed expiry count of at least 1, a scan removes an entry exactly when it is the last miss allowed since its last sighting |
| `BssRuns.RoundKeepsBest` | hostap/wpa_supplicant/bss.c:604-646 | in every round of every run, the entry of a BSS seen and not evicted shows the first associated result, else the first with the greatest update time |
| `Sqn.IncSqn` | hostap/hostapd/hlr_auc_gw.c:712-731 | shifts, mask and bitwise or on the 64-bit value: the six octets afterwards hold SEQ + 1 modulo 2^(48-len) and IND + 1 modulo 2^len |
| `Sqn.IncrementByBits` | hostap/hostapd/hlr_auc_gw.c:725-728 | the shifts, the mask and the bitwise or amount to adding one to either part |
| `Sqn.WordsOfSqn` | hostap/hostapd/hlr_auc_gw.c:729-730 | the two words written hold the low 48 bits |
| `Bits.MaskIsRemainder` | hostap/hostapd/hlr_auc_gw.c:727 | and with 2^k - 1 is the remainder by 2^k |
| `Bits.ShrIsDivision` | hostap/hostapd/hlr_auc_gw.c:726 | shifting right by k is division by 2^k |
| `Bits.OrIsSum` | hostap/hostapd/hlr_auc_gw.c:728 | or with a number that fits into the free low bits is addition |
| `Sqn.AfterByParts` | hostap/hostapd/hlr_auc_gw.c:712-731 | n increments give SEQ + n modulo 2^(48-len) and IND + n modulo 2^len, for len 0 to 30 |
| `Sqn.StrictlyIncreasing` | hostap/hostapd/hlr_auc_gw.c:712-731 | until SEQ wraps, later sequence numbers are strictly larger |
| `Sqn.VisitsEachIndOnce` | hostap/hostapd/hlr_auc_gw.c:726-728 | any 2^len consecutive sequence numbers take every IND value exactly once |
| `Sqn.IncreasingBetweenResyncs` | hostap/hostapd/hlr_auc_gw.c:753-850 | over every run of requests, numbers used between two re-synchronisations strictly increase until SEQ wraps |
| `Sqn.Subscribers.AkaReqAuth` | hostap/hostapd/hlr_auc_gw.c:748-782 | uses and stores the next number of that subscriber only; an unknown IMSI changes nothing |
| `Sqn.Subscribers.AkaAuts` | hostap/hostapd/hlr_auc_gw.c:841-862 | stores the recovered number only when MAC-S is right; an unknown IMSI fails |
| `Triplets.Database.GetGsmTriplet` | hostap/hostapd/hlr_auc_gw.c:362-384 | both loops of the cyclic search, and where the cursor goes |
| `Triplets.Database.SimReqAuth` | hostap/hostapd/hlr_auc_gw.c:599-656 | terminates having sent exactly as many triplets as asked for, or none when the IMSI has none |
| `Triplets.CountAskedIsServed` | hostap/hostapd/hlr_auc_gw.c:600-606 | a count of 1 or 2 means that many, anything else 3 |
| `Triplets.FoundUnlessAbsent` | hostap/hostapd/hlr_auc_gw.c:362-384 | the search finds a triplet of the IMSI if and only if there is one, wherever the cursor is |
| `Triplets.FoundIsNextMatch` | hostap/hostapd/hlr_auc_gw.c:362-384 | it returns the match at the rank of the cursor, cyclically, and moves one rank on |
| `Triplets.ServedCyclically` | hostap/hostapd/hlr_auc_gw.c:362-384 | the k-th of consecutive requests gets the match k ranks further on, cyclically |
| `Triplets.EachTripletOnce` | hostap/hostapd/hlr_auc_gw.c:362-384 | as many consecutive requests as the IMSI has triplets return each exactly once |

## Left out

- FILS key installation, TDLS key setup, and EAPOL padding removal for capture files: the pairwise key theorems are about EAPOL-Key frames.
- AES, SHA, CRC-32, key derivation, Milenage and information element parsing: parameters, with no more than their law where one is needed.
- `ccmp_encrypt_pv1`, BIP packet number ordering, ANQP sharing in the BSS table: no inverse or no property decided by this code.
- Sockets, files, SQLite, command lines, logging, notes, statistics counters and notifications.
- Allocation failure, except a failed reallocation of a BSS entry.
- EAPOL frames carried inside decrypted data frames, and links going down with a deauthentication: they only call other handlers.
- Several BSSes in injection: the network of `Inject` is one BSS, and a direct frame for another one counts as refused.
- The list of known stations: a station not yet seen is in state 1, as a newly created one is.
- A pointer to a freed current BSS is only compared, never read; what reading freed memory would give is not modelled.
- Interface state of the BSS table (current BSS, pending connection, own and pending BSSID, configuration) is set by an operation of its own or given with each call.
- `bss_max_count` lowered at run time below the number of entries.
- Tkip.TkipEncrypt: does not model frames of 24 to 31 octets whose Frame Control announces a longer header, because the source then reads behind the frame it was given.
- Tkip.RoundTrip: does not say what a receiver gets that takes the header of a QoS frame as longer than the sender did; it then reads the IV two octets late.
- Links inside `BssTable`: its lists are sequences of addresses; `DlList` proves the link operations against the same sequence functions, one list at a time.
- What the elements of a request, of message 2 and of a beacon declare is given with the event, as is whether they parse and change anything.
- Which address of a four-address frame is the station, and whether a direct frame belongs to a TDLS link, is given with the frame in `Replay`: it depends on the stations, keys and links known.
- Injection into a monitored network: the injector increments the receive counters too, but runs of `Replay` hold received frames only, and those of `Inject` sent ones.
- Flushing all BSSes by a control command: runs of `Assoc` and `Replay` go from one flush to the next.
- Sqn.IncSqn: does not model IND lengths 31 and 32, which the command line accepts and for which the shift in the source is undefined.
- The Milenage branch of `sim_req_auth`, and the text form of requests and responses.
- Blacklists, scanning strategies, access point setup and configuration parsing: easy members with no property across calls.
