# Verified model of rez-core

This project models the protocol core of `rez-core` in Dafny and proves what it is for: a two-party
ratcheted channel, onion routing, delegated account authority, the exact byte and text algorithms
they rest on, the guards at a relay's door, and the device-link and file-transfer ceremonies.

`dafny verify dfyconfig.toml` checks everything.

## How it is modelled

- **Cryptography** is a `Crypto.Provider`: arbitrary functions over bytes. Proofs use only the laws of
  `Crypto.Lawful` (Diffie-Hellman commutes, an AEAD opens what was sealed under the same key, nonce and
  associated data, HKDF output has the requested length, honest signatures verify), and `Crypto.LawsAreSatisfiable`
  shows that they are consistent. Where a result needs that a hash or HKDF does not collide, the
  hypothesis names the one pair of inputs that must not collide.
- **Objects updated in place** (the skipped-key store, session records, the channel manager, replay
  cache, duplicate filter, token buckets, data store, mailbox) are classes whose methods are proved
  against functions of the old state. Runs are then sequences of operations over those functions, and
  the main results quantify over every run.
- **Loops** (SHA-256, base64, base32, BIP-39, byte comparison, the safety walk, file reassembly, the
  authority check, the seeding scan) are methods with loops over JavaScript's own 32-bit operators
  where those matter (`JsInt`), proved against specifications on unbounded integers, bit strings or
  sequences.
- **Asynchronous operations** run to completion, one at a time. Randomness and clocks are parameters.

## What is proved

*Channel.* After an X3DH handshake, for every interleaving of sends, any loss, duplication or reordering of
genuine messages and any envelopes slipped in that do not open, an accepted message yields exactly the payload
sent at its index, and the chains stay crossed through the responder's lazy DH step. In every reachable state a
message is accepted if and only if its chain is announced and its key is held or the skip to it fits; until a
store limit is hit or a foreign envelope files keys, that means: not accepted before, announced, and within the
limits. No two messages of a party are sealed under one key and nonce, short of a collision of the key derivation
(`Channel.SealedApart`).

An envelope that does not open changes nothing of a session but its store (`SecureChannel.UnopenedKeepsState`), and
of the store exactly this: the key it asks for is taken out, or the keys it skips are filed
(`SecureChannel.DecryptTouches`). `Channel.AcceptedAfterForeign` says when a genuine message is still accepted
after one. Two things can go wrong, because the source writes to the store before it authenticates: a held key can
be lost and its message with it (`Channel.ForeignLoses`), and a message can then be accepted twice, at exactly
those limits under which a key can be filed at all, one skip, one key and 32 bytes (`Channel.TwiceWithForeign`).

The handshake secret binds every Diffie-Hellman output that went into it (`X3dh.SecretBinds`), and each side completes
exactly under the stated checks (`X3dh.CompletesExactly`).

Two properties one might expect are false of the code. Outstanding messages succeed in any order only
once the receiving chain exists: only the responder's first message announces its key, so a later reply
that arrives before it is refused (`Channel.LaterReplyFirst`), and without it the initiator never
accepts anything (`Channel.NothingWithoutAnnouncement`). `Channel.OutOfOrderComplete` states the exact
condition. And after a store-limit error a message can be accepted twice, because the keys filed before the error
stay while the chain index does not move: `Channel.StoreLimitRun` gives the run,
`Lane.ReacceptedExactlyWhen` the exact condition for a redelivery and `Channel.AcceptedDecided` for any later one.
`Channel.TwiceExactlyWhen` says which limits allow it without foreign envelopes, the default ones among them: those with
`maxSkip >= 2`, `maxSkippedKeys >= 1` and `maxSkippedBytes >= 32`.

*Onion.* For any path, ttl and payload that fits its size class, the first min(ttl, hops) peels succeed
in order with the right endpoint and ttl, the next one expires, and the full run ends in the payload
followed by zeros.

*Authority.* Without a chain only the account itself is accepted, for every action (`Authority.DirectExactly`);
whoever is accepted is the account or the last receiver of an authorized chain (`Authority.AcceptedSigner`). The
verdict is "delegated" if and only if the whole chain is an unbroken, everywhere
narrowing sequence of grants from the expected account to the operation signer; hence the length bound, the
exact time window, and monotonicity under revocation.

*Exact algorithms.* SHA-256 as in FIPS 180-4 with its constants derived from the first primes, strict base32,
canonical base64, BIP-39 round trips down to the single bit, and canonical JSON as a faithful encoding up to key
order that a JSON reader reads back. `stableJson` prints the canonical text exactly when
in every object index-like keys sort before the other keys and before larger indices; the object
with keys 9 and 10 is one where it does not.

*Guards.* The duplicate filter equals a mark log, the replay cache a sliding window, the gate a rate bound over
every window that it also uses up: in every reachable state a call is admitted if and only if all windows ending with
it stay within their bounds (`FloodRefill.AdmittedExactly`), so whoever waits for a token gets it and whoever keeps
asking gets exactly the bound. The key walk refuses exactly the graphs in which an object it reaches owns a dangerous key. It never
looks at the named properties of an array, so an array that owns such a key passes (`SafeJson.ArrayKeyPasses`);
`SafeJson.WholeExactly` states exactly what it misses.

*Mailboxes.* What was deposited is what a fetch returns, and is listed, until it is acknowledged or, which a clock
past every earlier deposit after each restart rules out, its id is given out again
(`Delivery.FetchReturnsDeposit`, `Delivery.DeliveredUntilAcked`). The quota does not hold of every store: a mailbox that held events before a byte cap was
configured has no persisted total, seeds to zero and can pass its cap (`Mailbox.OlderMailboxExceeds`).
`Mailbox.CapsHoldExactly` gives the exact condition for a starting process on any store: all runs keep the
caps if and only if the caps hold at the start and every persisted total covers the stored bytes, or the mailbox is
full with its only event. `Mailbox.PassesCapExactly` says when one deposit passes the cap. Both concern mailboxes that
are apart (neither lists the other's events; ids without slashes always are).
From a start state with exact books (`Mailbox.Inv`, such as an empty store), counters and persisted totals stay
equal to the stored events and their bytes along a run if and only if no accepted deposit overwrites an event that
counts (`Mailbox.ExactIffFresh`). A clock past every earlier deposit after each restart ensures it. A restart and a
deposit break it when the millisecond, the process's counter value and the mailbox all repeat those of an earlier
deposit that is still stored (`Mailbox.SameMillisecondRestart`).

*Ceremonies.* Link codes round-trip, a link request made for a code and account is accepted exactly within its
time window, an accepted confirmation means full agreement of both sides, honest device links open
the sealed bundle, and files come back from their chunks in any order.

## Model

| member | source | states |
|---|---|---|
| `Ratchet.CompareBytes` | src/services/RatchetService.js:22-28 | the loop returns the recursive lexicographic comparison, length last |
| `Ratchet.CompareAntisymmetric` | src/services/RatchetService.js:22-28 | the comparison is antisymmetric and zero only on equal keys, so the two ends always take opposite halves of a DH step |
| `Ratchet.CompareLexicographic` | src/services/RatchetService.js:22-28 | negative exactly when the first key is a proper prefix or has the smaller byte at the first difference |
| `Ratchet.StepSplits` | src/crypto/ratchet/KdfRoot.js:15-19 | the 96 derived bytes are the next root, the chain of the party with the smaller key and the chain of the other, in this order |
| `Ratchet.StepBinds` | src/services/RatchetService.js:89-140 | two steps of the same orientation with equal resulting keys had equal root and agreement output, unless the derivation collides on the two |
| `Ratchet.StepKeepsOther` | src/services/RatchetService.js:89-140 | establishing one direction differs from the full step only in keeping the other chain |
| `Ratchet.ChainSplits` | src/crypto/ratchet/KdfChain.js:14-18 | the 64 derived bytes are the message key and then the next chain key |
| `Ratchet.ChainBinds` | src/crypto/ratchet/KdfChain.js:6-19 | a message key with its next chain key stands for one chain key, unless the derivation collides |
| `Ratchet.BytesEqual` | src/services/RatchetService.js:30-37 | the OR-of-XOR loop is true exactly for equal byte strings |
| `Ratchet.LookupKeyInjective` | src/services/RatchetService.js:224-226 | a lookup key names its session, ratchet key and index unambiguously |
| `Ratchet.SkipAhead` | src/services/RatchetService.js:245-260 | the skip loop returns what its recursive specification returns and leaves the store it leaves, also when it fails |
| `Ratchet.DeriveReceivingKeyForHeader` | src/services/RatchetService.js:196-264 | the call returns what the recursive specification returns and leaves its store behind, including the writes made before an error |
| `Ratchet.SkipLeaves` | src/services/RatchetService.js:245-260 | on any chain and any store, also on an error, the skip loop has filed the chain's keys up to some index, each under its own slot, and no other slot has changed |
| `SkippedKeys.SkippedKeyStore.constructor` | src/objects/ratchet/SkippedKeyStore.js:10-42 | the summed `totalBytes` is exact |
| `SkippedKeys.SkippedKeyStore.Set` | src/objects/ratchet/SkippedKeyStore.js:49-67 | replaces in place or appends, refuses the empty key, and keeps `totalBytes` the exact sum |
| `SkippedKeys.SkippedKeyStore.Delete` | src/objects/ratchet/SkippedKeyStore.js:69-75 | removes at most the first match, says whether it did, and keeps `totalBytes` the exact sum |
| `SkippedKeys.PutGet` | src/objects/ratchet/SkippedKeyStore.js:44-67 | reading after a write gives the written key at its slot and the old one elsewhere |
| `SkippedKeys.DropGet` | src/objects/ratchet/SkippedKeyStore.js:44-75 | a deleted slot reads as absent and every other slot is untouched |
| `Lane.SkipSound` | src/services/RatchetService.js:245-260 | however the skip loop ends, the store holds only the sender's keys, within both limits |
| `Lane.SkipFiles` | src/services/RatchetService.js:245-260 | a completed skip files exactly the messages passed over |
| `Lane.SkipExact` | src/services/RatchetService.js:245-260 | on any store of genuine keys, also one left by an error, the skip loop completes exactly when the count and byte limits leave room for one place more than the store takes up at its last message, counting only keys not yet held |
| `Lane.ArriveSound` | src/services/RatchetService.js:196-264 | a genuine message is refused or gets exactly the sender's key for its index |
| `Lane.ArriveDecided` | src/services/RatchetService.js:196-264 | in every receiving state, whatever errors came before, a message is accepted if and only if its key is held or the chain has not passed it and the skip fits |
| `Lane.ReacceptedExactlyWhen` | src/services/RatchetService.js:229-264 | a message just accepted is accepted again if and only if its key came from the store ahead of the chain index and the counted room allows the skip, all read off the state before the call |
| `Lane.StoreLimitBreaksExactlyOnce` | src/services/RatchetService.js:245-260 | a concrete run in which a store-limit error lets message 0 be accepted twice |
| `SecureChannel.SecureChannelManager.CreateSession` | src/services/sessions/MemorySessionManager.js:38-94 | one fresh record is registered under both the session id and the peer, and nothing else changes |
| `SecureChannel.SecureChannelManager.RotateDh` | src/services/sessions/MemorySessionManager.js:140-164 | only the key pair and the announce flag change |
| `SecureChannel.SecureChannelManager.EncryptPayload` | src/e2ee/SecureChannelManager.js:290-347 | envelope and new session are the specified ones, with the lazy DH step first when there is no sending chain |
| `SecureChannel.EnvelopeTells` | src/codec/EncryptEnvelopeCodec.js:53-108 | header, nonce and ciphertext tell the session before and after: number, previous count, due ratchet key and its format |
| `SecureChannel.AeadSplits` | src/crypto/aead/KdfAeadV1.js:31-34 | the 44 derived bytes are key and then nonce |
| `SecureChannel.AeadKeyBinds` | src/crypto/aead/KdfAeadV1.js:15-35 | equal key and nonce stand for equal message key, session, ratchet key hash and, modulo 2^32, counters, unless the derivation collides |
| `SecureChannel.SecureChannelManager.DecryptPayload` | src/e2ee/SecureChannelManager.js:349-448 | result and new session are the specified ones, store included; an unknown session id changes nothing |
| `SecureChannel.UnopenedKeepsState` | src/e2ee/SecureChannelManager.js:411-423 | for every envelope and session: name and announce flag never change, the ratchet state only when the envelope opens |
| `SecureChannel.DecryptTouches` | src/codec/DecryptEnvelopeCodec.js:63-84 | for every envelope, opened or not: the store loses exactly the key asked for, or gains exactly the keys of the numbers passed over up to some index, or stays |
| `Channel.CrossedChains` | src/services/RatchetService.js:89-140 | the responder's first header installs at the initiator exactly the chain the responder sends on |
| `Channel.LazySend` | src/e2ee/SecureChannelManager.js:290-347 | the responder's first send announces its key, starts the reply chain and leaves its receiving chain alone |
| `Channel.RunInv` | src/services/RatchetService.js:89-264 | every run of sends, deliveries and foreign envelopes that do not open keeps the channel invariant |
| `Channel.ChannelSafety` | src/e2ee/SecureChannelManager.js:290-448 | in every reachable state a genuine message yields exactly the payload sent at its index or a ratchet error |
| `Channel.AcceptedExactlyOnce` | src/services/RatchetService.js:196-264 | until a store limit that strands keys is hit or a foreign envelope that can file keys arrives, accepted if and only if not accepted before, announced and within the limits |
| `Channel.AcceptedDecided` | src/services/RatchetService.js:196-264 | in every reachable state, also past a store limit and after foreign envelopes, accepted if and only if announced and the key is held or the skip fits |
| `Channel.AcceptedAfterForeign` | src/e2ee/SecureChannelManager.js:411-423 | in every reachable state an envelope that does not open changes one store and nothing else; a genuine message is accepted afterwards if and only if it is announced and held in that store or its skip fits, and of the keys held before exactly the one the header points at is gone |
| `Channel.ForeignLoses` | src/services/RatchetService.js:229-237 | the input: an envelope that names a held number does not open, and the message of that number is lost |
| `Channel.TwiceWithForeign` | src/services/RatchetService.js:229-264 | with foreign envelopes some run makes a party accept a message twice if and only if the limits let a key be filed |
| `Channel.SealedApart` | src/codec/EncryptEnvelopeCodec.js:61-97 | in every reachable state no two of a party's first 2^32 messages are sealed under one key and nonce, unless the derivation collides on the two |
| `Channel.StoreLimitRun` | src/services/RatchetService.js:245-260 | a run whose store-limit error makes the responder accept message 0 twice |
| `Channel.TwiceExactlyWhen` | src/services/RatchetService.js:239-260 | some run without foreign envelopes makes a party accept a message twice if and only if a skip may pass over two messages and the store has room for one key |
| `Lane.StoreLimitStrands` | src/services/RatchetService.js:245-260 | at any such limits, in any state with room for one key more: the message two ahead fails, and the next one is accepted twice |
| `Lane.NothingStranded` | src/services/RatchetService.js:239-260 | under all other limits an error leaves the store as it was |
| `Channel.StoresStayBounded` | src/services/RatchetService.js:245-260 | in every reachable state, also after errors and foreign envelopes, both stores respect both limits and every key held for the peer's chain is the one the peer uses; until a foreign envelope can file keys they hold nothing else |
| `Channel.ChainsStayCrossed` | src/services/RatchetService.js:89-140 | each receiving chain is a stretch of the chain the peer sends on, never ahead of it |
| `Channel.NothingWithoutAnnouncement` | src/services/RatchetService.js:209-221 | in every run in which reply 0 is not delivered the initiator accepts nothing and has no receiving chain |
| `Channel.LaterReplyFirst` | src/services/RatchetService.js:209-221 | two replies, the second delivered first: refused for want of a receiving chain |
| `Channel.OutOfOrderComplete` | src/services/RatchetService.js:196-264 | outstanding messages handed over once each in any order all succeed, and at the end no key is left over, if and only if the receiving chain exists or the first one handed over announces it |
| `X3dh.AssertSecretBytes` | src/services/X3DHService.js:25-42 | the OR-accumulating loop accepts exactly 32 bytes that are not all zero |
| `X3dh.Agreement` | src/services/X3DHService.js:121-321 | whenever the initiator completes, the receiver completes with the same secret |
| `X3dh.InitiatorCompletes` | src/services/X3DHService.js:121-233 | with or without a one-time key the initiator completes exactly when its binding verifies and no DH output is degenerate |
| `X3dh.CompletesExactly` | src/services/X3DHService.js:121-321 | either side completes exactly when keys are long enough, all its signature checks pass, a used one-time key is there and no DH output is degenerate; the secret is derived from the outputs in order |
| `X3dh.SecretBinds` | src/services/X3DHService.js:206-317 | two completed computations with equal secrets have equal DH1, DH2, DH3 and DH4, unless the derivation collides on the two concatenations |
| `Establish.EstablishInitiatorSession` | src/e2ee/SecureChannelManager.js:112-188 | registers one fresh record of the handshake's session under its id and its peer and leaves every other entry, or changes nothing |
| `Establish.EstablishResponderSession` | src/e2ee/SecureChannelManager.js:207-288 | the same for the responder session with the rotated key |
| `Establish.HandshakeStartsChannel` | src/e2ee/SecureChannelManager.js:112-288 | an honest handshake leaves both ends in the initial state of the channel runs |
| `Onion.TrimTrailingZeros` | src/codec/onion/parseOnionLayerV2.js:3-7 | the loop returns the longest prefix that does not end in zero |
| `Onion.TrimPadded` | src/codec/onion/parseOnionLayerV2.js:3-15 | trimming gives a padded blob back exactly when it is empty or does not end in a zero byte |
| `Onion.BuildFixed` | src/codec/onion/buildFixedOnionPacketV2.js:3-23 | succeeds exactly when the asked class, or without one some class, is known and holds the blob; the class is the asked or the least fitting one, and the payload is the blob and zeros |
| `Onion.Encode` | src/codec/onion/OnionEncodeCodecV2.js:33-132 | the backwards loop computes the recursive wrapping, with its error cases |
| `Onion.PeelOnce` | src/codec/onion/OnionPeelCodecV2.js:29-129 | a peel marks the cache before decrypting, refuses what is in the window and otherwise returns the specified layer |
| `Onion.PeeledExactly` | src/codec/onion/OnionPeelCodecV2.js:29-129 | any packet, whoever made it, is peeled exactly when versions, hop, key and ttl fit and the layer opens under the agreed key bound to them; the result is the layer's own content |
| `Onion.LayerSplits` | src/crypto/onion/deriveOnionAeadKeyNonceV2.js:25-27 | the 44 derived bytes are key and then nonce |
| `Onion.LayerKeyBinds` | src/crypto/onion/deriveOnionAeadKeyNonceV2.js:14-28 | equal key and nonce stand for equal agreement output and, modulo 2^32, hop, unless the derivation collides |
| `Onion.PeelHop` | src/codec/onion/OnionPeelCodecV2.js:51-128 | hop i gets the next endpoint, ttl - i - 1 and the packet of hop i + 1, or expiry |
| `Onion.OnionRun` | src/codec/onion/OnionEncodeCodecV2.js:59-118 | the whole run: min(ttl, hops) peels in order, then expiry, or the payload followed by zeros |
| `WireFormats.CodecExists` | src/codec/onion/OnionEncodeCodecV2.js:19-21 | the canonical texts of the two layer objects meet the assumptions made on the layer codec, with the canonical text of hop, ttl and key id as associated data |
| `WireFormats.LayerAadBinds` | src/crypto/onion/OnionLayerAeadV2.js:16-19 | a layer's associated data determines hop index, ttl and key id |
| `WireFormats.FramingExists` | src/codec/JsonCodec.js:9-21 | the printed inner envelope meets the assumption made on the inner codec, with the canonical text of both headers as associated data |
| `WireFormats.AadBinds` | src/codec/encryption/buildAadBytesV1.js:15-42 | the associated data determines the outer header and the ratchet header |
| `ReplayCache.TripleKeyInjective` | src/services/onion/OnionReplayCacheV2.js:17-37 | a cache key names one packet, hop and key id |
| `ReplayCache.WindowIsRecent` | src/services/onion/OnionReplayCacheV2.js:17-37 | after any run a call is refused exactly when its key is among the last `maxEntries` accepted |
| `ReplayCache.OnionReplayCache.CheckAndMark` | src/services/onion/OnionReplayCacheV2.js:17-37 | the eviction code keeps that window, with the three argument errors |
| `Sha256.ZeroBytesLeast` | src/base/util/Hash.js:59-63 | the specification's zero padding is the least that completes a block |
| `Sha256.TotalLength` | src/base/util/Hash.js:59-63 | the masked 32-bit expression is the padded length exactly while length + 72 < 2^31 |
| `Sha256.JsRotrIs` | src/base/util/Hash.js:32-34 | the JavaScript shifts rotate a word |
| `Sha256.ConstantsAreRoots` | src/base/util/Hash.js:37-57 | the round constants are the fractions of the cube roots of the first 64 primes, the initial value those of the square roots of the first eight |
| `Sha256.Sha256Internal` | src/base/util/Hash.js:36-123 | equals the FIPS 180-4 digest for every input with length + 72 < 2^31, and fails otherwise |
| `Base64.BytesToBase64` | src/util/bytes.js:66-81 | the loop over 32-bit operations is the RFC 4648 encoding |
| `Base64.AlphabetIs` | src/util/bytes.js:2 | the alphabet, character by character |
| `Base64.EncodeSpells` | src/util/bytes.js:66-81 | the characters' six-bit values, written out, are the bits of the bytes and zeros up to a group; exactly the last one or two characters are padding |
| `Base64.Base64ToBytes` | src/util/bytes.js:83-117 | the loop is the specified decoder, errors included |
| `Base64.DecodeEncode` | src/util/bytes.js:66-117 | decoding inverts encoding on every byte string |
| `Base64.CanonicalIffEncoding` | src/objects/device/deviceRecordShared.js:29-49 | a string is accepted exactly when it encodes a non-empty byte string |
| `Base64.CanonicalUnique` | src/objects/device/deviceRecordShared.js:29-49 | distinct accepted strings never decode to the same bytes |
| `Base32.BytesToBase32` | src/util/base32.js:3-26 | the bit-buffer loop is the RFC 4648 encoding for any length, although the buffer overflows 32 bits |
| `Base32.AlphabetIs` | src/util/base32.js:1 | the alphabet, character by character |
| `Base32.Base32ToBytes` | src/util/base32.js:28-58 | the loop is the strict decoder, errors included |
| `Base32.DecodeIffEncode` | src/util/base32.js:3-58 | the decoder returns b exactly on the encoding of b |
| `Bip39.EntropyToMnemonic` | src/crypto/bip39.js:73-94 | the bit-string loops build the specified mnemonic |
| `Bip39.IndexBits` | src/crypto/bip39.js:73-94 | bit by bit: the word indices are the entropy followed by the leading bits of its digest, one for each 32 bits |
| `Bip39.ValidateMnemonic` | src/crypto/bip39.js:96-127 | the loops compute the specified validation, errors included |
| `Bip39.ValidateMnemonicOf` | src/crypto/bip39.js:36-127 | validating the mnemonic of e returns e |
| `Bip39.ValidatedIsMnemonic` | src/crypto/bip39.js:36-127 | an accepted text is, normalized, the mnemonic of the returned entropy |
| `Bip39.ValidateBrowserMnemonic` | src/keystore/BrowserRecovery.js:124-142 | the browser validator accepts exactly the same texts |
| `Ordering.SortCanonical` | src/util/canonicalize.js:5-25 | lists with the same entries sort to the same list under UTF-16 order |
| `Ordering.LessIsUnitOrder` | src/util/canonicalize.js:5-25 | the key order is that of the UTF-16 code units |
| `JsonReader.ParsePrinted` | src/util/canonicalize.js:23-25 | a reader written after RFC 8259 reads every printed value back, escapes included |
| `JsonReader.ParseCanonical` | src/util/canonicalize.js:5-25 | it reads the canonical text as the value in canonical key order |
| `CanonicalJson.PrintInjective` | src/util/canonicalize.js:23-25 | distinct JSON values print differently |
| `CanonicalJson.CanonicalTextFaithful` | src/util/canonicalize.js:5-25 | two values print to the same text exactly when they are equal up to key order |
| `CanonicalJson.CanonicalIdempotent` | src/util/canonicalize.js:5-25 | canonicalizing twice changes nothing |
| `StableJson.StableText` | src/network/FrameFingerprint.js:14-23 | `stableJson` prints the value with the fields of every object sorted |
| `StableJson.StableIffKeysInOrder` | src/network/FrameFingerprint.js:14-23 | `stableJson` prints the canonical text if and only if in every object index-like keys sort before the other keys and before larger indices |
| `StableJson.StableIsCanonical` | src/network/FrameFingerprint.js:14-23 | in particular when no key is index-like |
| `StableJson.IndexKeysDiffer` | src/network/FrameFingerprint.js:14-23 | the object with keys 9 and 10, on which the two texts differ |
| `Authority.VerifyAccountAuthority` | src/objects/device/verifyAccountAuthority.js:42-236 | guards, direct mode and delegated mode give the verdict characterised by the next rows |
| `Authority.DirectExactly` | src/objects/device/verifyAccountAuthority.js:51-82 | over every chain: direct exactly when there is none, the trimmed signer is the non-empty trimmed account and the required action, if any, is known; then all six actions are granted |
| `Authority.AcceptedExactly` | src/objects/device/verifyAccountAuthority.js:51-235 | over every chain: accepted exactly in that case or when the chain is an authorized one; what is required is then granted and nothing unknown is |
| `Authority.AcceptedSigner` | src/objects/device/verifyAccountAuthority.js:51-235 | whoever is accepted is the account itself or the leaf grantee of an authorized chain of objects that the account began |
| `Authority.VerifyChain` | src/objects/device/verifyAccountAuthority.js:99-117 | the reconstruction loop stops at the first entry that is no valid certificate |
| `Authority.VerifyLinks` | src/objects/device/verifyAccountAuthority.js:124-235 | the loop reports the first failing check at the first failing link, or the leaf's verdict |
| `Authority.DelegatedExactly` | src/objects/device/verifyAccountAuthority.js:99-235 | delegated exactly when anchored, linked, signed, current, distinct and narrowing between every ancestor and descendant; the expiry returned is the leaf's |
| `Authority.RejectedAt` | src/objects/device/verifyAccountAuthority.js:126-235 | a rejection of well-formed certificates points at the first link out of order, or at the leaf that does not serve signer or action |
| `Authority.AcceptedChainsAreCerts` | src/objects/device/verifyAccountAuthority.js:99-117 | an accepted chain consists of objects only |
| `Authority.LeafExpiresFirst` | src/objects/device/verifyAccountAuthority.js:119-158 | the minimum expiry over the chain is the leaf's |
| `Authority.ChainLengthBound` | src/objects/device/verifyAccountAuthority.js:195-201 | an accepted chain is at most one longer than the root's delegation depth |
| `Authority.AcceptedExactlyInWindow` | src/objects/device/verifyAccountAuthority.js:149-158 | an accepted chain keeps its verdict exactly from its latest issue until its expiry |
| `Authority.RevocationMonotone` | src/objects/device/verifyAccountAuthority.js:85-97 | revoking more or raising the cutoff never turns a rejection into acceptance |
| `Authority.RevokedMemberStopsExtensions` | src/objects/device/verifyAccountAuthority.js:140-147 | a revoked member stops the chain and every extension of it |
| `Deduper.SeenMeetsLog` | src/network/DeduperLRU.js:17-30 | one lookup answers as the mark log and keeps the invariant |
| `Deduper.MarkKeepsInv` | src/network/DeduperLRU.js:32-45 | one mark, with pruning and eviction, keeps the invariant for the longer log |
| `Deduper.SeenIffRemembered` | src/network/DeduperLRU.js:17-58 | after any run under a non-decreasing clock, seen exactly when the last mark is within ttl and fewer than capacity distinct others followed |
| `Deduper.DeduperLRU.Seen` | src/network/DeduperLRU.js:17-30 | result and new state are the specified ones |
| `Deduper.DeduperLRU.MarkKey` | src/network/DeduperLRU.js:32-45 | the new state is the specified one, the eviction loop included |
| `Deduper.DeduperLRU.Prune` | src/network/DeduperLRU.js:52-58 | deleting while iterating leaves exactly the unexpired entries in order |
| `DataStore.MemoryDataStore.Put` | src/storage/memory/MemoryDataStore.js:8-11 | overwrites in place or appends, keys stay distinct |
| `DataStore.MemoryDataStore.Remove` | src/storage/memory/MemoryDataStore.js:44-47 | deletes the key if present and says so; afterwards it is absent |
| `DataStore.FindPut` | src/storage/memory/MemoryDataStore.js:8-17 | reading after a write gives the value at its key and the old one elsewhere |
| `DataStore.MemoryDataStore.List` | src/storage/memory/MemoryDataStore.js:19-42 | filter, sort, reversal, cursor and limit give the specified page |
| `DataStore.ListedOnce` | src/storage/memory/MemoryDataStore.js:19-25 | in either direction every key with the prefix is listed once |
| `DataStore.PageContinues` | src/storage/memory/MemoryDataStore.js:19-42 | in either direction, while the cursor's key is stored, a page after i entries is the next `limit` of the list and its cursor continues right behind them |
| `DataStore.PageRestarts` | src/storage/memory/MemoryDataStore.js:27-32 | any other cursor gives the first page |
| `DataStore.RemovedCursorRestarts` | src/storage/memory/MemoryDataStore.js:27-32 | a page asked for behind an entry removed in between is the first page of what is left |
| `Mailbox.EventIdInjective` | src/mailbox/RMailbox.js:323-326 | equal event ids have equal clock reading and counter |
| `Mailbox.ListedExactly` | src/mailbox/RMailbox.js:142-146 | an event of m is listed under m' if and only if m'/evt/ is a prefix of m/evt/ |
| `Mailbox.ListingGrows` | src/mailbox/RMailbox.js:142-146 | a new event of m adds one to the listing of m' exactly in that case, else nothing |
| `Mailbox.SlashFreeFamily` | src/mailbox/RMailbox.js:142-146 | mailbox ids without slashes are pairwise apart |
| `Mailbox.SlashBreaksIsolation` | src/mailbox/RMailbox.js:142-146 | two mailbox ids, one with a slash, whose events mix |
| `Mailbox.RMailbox.EnsureCount` | src/mailbox/RMailbox.js:257-273 | the page loop terminates and counts every stored event once |
| `Mailbox.RMailbox.EnsureBytes` | src/mailbox/RMailbox.js:284-292 | seeds from the persisted total once |
| `Mailbox.RMailbox.DepositRecord` | src/mailbox/RMailbox.js:94-179 | result and new state are the specified ones, counters seeded also when refused |
| `Delivery.DepositDelivers` | src/mailbox/RMailbox.js:115-155 | an accepted deposit stores the record's bytes under the returned id with the given or drawn object id; every other key but the byte total reads as before |
| `Delivery.RefusedStoresNothing` | src/mailbox/RMailbox.js:94-140 | a refused deposit leaves the store alone |
| `Mailbox.RMailbox.Fetch` | src/mailbox/RMailbox.js:214-218 | returns what is stored under the event key |
| `Mailbox.RMailbox.AckEvent` | src/mailbox/RMailbox.js:223-249 | result and new state are the specified ones |
| `Delivery.AckRemoves` | src/mailbox/RMailbox.js:220-249 | an acknowledged event is gone, the answer says whether it was there, every other key but the byte total reads as before |
| `Delivery.FetchReturnsDeposit` | src/mailbox/RMailbox.js:94-249 | over every run: fetching an event neither acknowledged nor overwritten returns what was deposited |
| `Delivery.DeliveredUntilAcked` | src/mailbox/RMailbox.js:94-249 | under a clock past every earlier deposit after each restart: fetching an event not acknowledged returns what was deposited |
| `Delivery.AckedIsGone` | src/mailbox/RMailbox.js:214-249 | over every run: an acknowledged event whose id is not given out again is gone |
| `Delivery.ListedIsFetchable` | src/mailbox/RMailbox.js:195-218 | every id a page lists fetches the listed event |
| `Delivery.ListedUntilAcked` | src/mailbox/RMailbox.js:195-249 | a deposited event stays listed until it is acknowledged |
| `Mailbox.DepositRefusedExactly` | src/mailbox/RMailbox.js:126-140 | with exact counters a deposit is refused exactly when the stored events would pass a cap |
| `Mailbox.AcceptedExactly` | src/mailbox/RMailbox.js:94-140 | in any state a deposit is accepted exactly when mailbox and content type are valid and what the two checks count leaves room |
| `Mailbox.DepositCounts` | src/mailbox/RMailbox.js:142-155 | in any state an accepted deposit adds to counters and persisted total in full, while the stored events lose what stood under the drawn key |
| `Mailbox.ExactIffKeyFree` | src/mailbox/RMailbox.js:142-155 | from exact books an accepted deposit keeps them exact if and only if, under an item cap, the drawn key was free and, under a byte cap, it held no bytes; otherwise the counters are too high by what was overwritten |
| `Mailbox.PassesCapExactly` | src/mailbox/RMailbox.js:126-140 | some record passes the byte cap at a moment if and only if the byte check counts less than would stay stored beside it and neither check refuses already |
| `Mailbox.RunKeepsInv` | src/mailbox/RMailbox.js:94-296 | deposits, acknowledgements, creations and restarts on mailboxes apart from each other keep the books exact while accepted deposits overwrite nothing that counts |
| `Mailbox.QuotaHolds` | src/mailbox/RMailbox.js:126-296 | from any state with exact books, after every such run counters and the persisted total equal what is stored and no cap is exceeded |
| `Mailbox.ExactIffFresh` | src/mailbox/RMailbox.js:126-155 | every state along a run has exact books if and only if no accepted deposit overwrites what counts |
| `Mailbox.ClockedIsFresh` | src/mailbox/RMailbox.js:323-326 | keys are free when after each restart the clock is past every earlier deposit, whatever it does within a process |
| `Mailbox.QuotaFromEmpty` | src/mailbox/RMailbox.js:126-296 | hence the quota from an empty store under such a clock |
| `Mailbox.SameMillisecondRestart` | src/mailbox/RMailbox.js:323-326 | deposit, restart and deposit in one millisecond with the same counter value: one event is stored, the counter says two |
| `Mailbox.RunGuarded` | src/mailbox/RMailbox.js:94-296 | no run, overwriting deposits included, leaves the states in which the checks count at least what is stored or the mailbox is full with its only event |
| `Mailbox.CapsHoldExactly` | src/mailbox/RMailbox.js:126-296 | for a process starting on any store, every run keeps both caps if and only if they hold at the start and each persisted total covers the stored bytes or the mailbox is full with its only event |
| `Mailbox.OlderMailboxExceeds` | src/mailbox/RMailbox.js:284-292 | the input: a mailbox older than its byte cap seeds to zero, and a deposit passes the cap |
| `FloodGate.TokenBucket.Take` | src/network/FloodGate.js:11-20 | result and new bucket are the specified ones |
| `FloodGate.FloodGuard.Allow` | src/network/FloodGate.js:48-53 | the connection's bucket first, then the global one, whatever clock a new bucket read |
| `FloodGate.FloodGuard.TakeWarning` | src/network/FloodGate.js:55-62 | reports and resets the drops at most once an interval |
| `FloodGate.GlobalWindowBound` | src/network/FloodGate.js:3-21 | in any window of any run at most burst + rate × seconds calls are allowed over all connections |
| `FloodGate.BurstIsReached` | src/network/FloodGate.js:11-20 | of the calls a full bucket gets at one instant exactly the first floor(burst) are allowed |
| `FloodRefill.AllowedExactly` | src/network/FloodGate.js:11-20 | after any calls, a call is allowed if and only if with it every window from an earlier call stays within burst + rate × seconds, and all calls within what the bucket began with |
| `FloodRefill.SpacedAllPass` | src/network/FloodGate.js:11-20 | calls at least 1000 / rate milliseconds apart are all allowed after the same first wait |
| `FloodRefill.FilledExactly` | src/network/FloodGate.js:11-20 | of the calls of one who keeps asking exactly as many pass as there were tokens at the first and earned until the last, unless there were fewer calls |
| `FloodGate.ConnectionWindowBound` | src/network/FloodGate.js:48-88 | the same for one connection between releases |
| `FloodRefill.AdmittedExactly` | src/network/FloodGate.js:48-88 | in every reachable state a call is admitted if and only if its connection's calls since the last reset and the calls that reached the global bucket both stay within all window bounds |
| `FloodRefill.WaitedIsAdmitted` | src/network/FloodGate.js:48-53 | in every reachable state whoever waits one token's time at its own rate is admitted when the global bucket was not asked for as long at its rate |
| `FloodRefill.GateFilledExactly` | src/network/FloodGate.js:48-53 | one connection that keeps asking at a gate with no tighter global limits gets exactly its burst and what it earned |
| `FloodGate.DropsConserved` | src/network/FloodGate.js:48-62 | until a clear, reported plus pending drops equal the refusals |
| `FloodRefill.WarningsSpaced` | src/network/FloodGate.js:55-62 | a run gives no more warnings than intervals have passed |
| `FloodRefill.WarnedInFull` | src/network/FloodGate.js:55-62 | a warning asked for after an interval tells of every refusal not yet told of |
| `SafeJson.AssertSafeJsonKeys` | src/util/safeJson.js:52-89 | terminates on every finite graph and throws exactly when an object other than an array, reached through elements and data properties, owns a dangerous key, naming a real path |
| `SafeJson.WholeExactly` | src/util/safeJson.js:62-67 | with arrays seen as the objects they are, a dangerous key is reachable if and only if the walk meets one or reaches an array with a named property that is dangerous or leads to one |
| `SafeJson.ArrayKeyPasses` | src/util/safeJson.js:62-67 | the input: an array that owns a dangerous key itself is let through |
| `SafeJson.Visit` | src/util/safeJson.js:62-86 | one object's key loop stops exactly at a dangerous key, else pushes every element or data property |
| `FileTransfer.ChunkFile` | src/filetransfer/FileChunker.js:10-60 | succeeds exactly on legal input, with a manifest that describes the file and its pieces in order |
| `FileTransfer.Reassemble` | src/filetransfer/FileChunker.js:62-121 | the placing, checking and copying loops give the specified result and the first error |
| `FileTransfer.ReassembleChunks` | src/filetransfer/FileChunker.js:10-121 | any list of the file's chunks that has each at least once gives the file back |
| `FileTransfer.AcceptedIsTheFile` | src/filetransfer/FileChunker.js:88-121 | whatever arrives, an accepted result has the file's hash, so differs only on a collision |
| `FileTransfer.MissingChunkRefused` | src/filetransfer/FileChunker.js:82-86 | a list without some index is refused |
| `FileTransfer.CountBounds` | src/filetransfer/FileManifestV1.js:43-54 | the chunk count is the least that covers the file |
| `FileTransfer.ReceivedCount` | src/filetransfer/FileTransferSessionV1.js:51-57 | the loop counts the true flags |
| `FileTransfer.CompleteIffCovered` | src/filetransfer/FileTransferSessionV1.js:51-84 | a session is complete, by count and by state, exactly when the marks cover every index |
| `LinkCode.ParseExactly` | src/protocol/deviceLinkV1.js:151-186 | a code parses to a secret and key exactly when it is their code up to white space around the body |
| `LinkCode.ParseEncode` | src/protocol/deviceLinkV1.js:151-186 | parsing inverts encoding |
| `LinkCode.EncodeParse` | src/protocol/deviceLinkV1.js:151-186 | encoding inverts parsing where nothing is trimmed |
| `DeviceLink.ReaderExists` | src/protocol/deviceLinkV1.js:583-588 | a reader that inverts canonical printing exists, so the assumption made on parsing is consistent |
| `DeviceLink.ObjectPrefix` | src/protocol/deviceLinkV1.js:123-136 | the associated data in a transcript is delimited: text of an object followed by anything determines the object |
| `DeviceLink.ConfirmAgreement` | src/protocol/deviceLinkV1.js:231-237 | an accepted tag means equal account, rendezvous, request transcript, ephemeral key, sealed response and master secret |
| `DeviceLink.RequestAgreement` | src/protocol/deviceLinkV1.js:123-136 | equal request transcripts stand for the same sealed request |
| `DeviceLink.MasterAgreement` | src/protocol/deviceLinkV1.js:217-225 | equal master secrets stand for the same agreement output, code secret and request transcript |
| `DeviceLink.RequestKeyBinds` | src/protocol/deviceLinkV1.js:201-215 | equal request keys stand for equal code secrets |
| `DeviceLink.ResponseKeyBinds` | src/protocol/deviceLinkV1.js:227-229 | equal response keys stand for equal master secrets |
| `DeviceLink.CeremonyAgreement` | src/protocol/deviceLinkV1.js:471-632 | if the approver of a built response accepts the confirmation of a requester that opened one, both hold the same values |
| `LinkRequest.RecordRoundTrip` | src/objects/device/DeviceLinkRequestV2.js:45-69 | a request record, printed canonically and read back, is itself with its binding in canonical order |
| `LinkRequest.SignableCanonical` | src/objects/device/DeviceLinkRequestV2.js:104-107 | key order inside the binding does not change the signed bytes |
| `LinkRequest.MadeIsAccepted` | src/protocol/deviceLinkV1.js:290-308 | a request made for this code and account passes the version, shape, signature, account, nonce and binding checks, and is accepted exactly within its time window |
| `LinkRequest.AcceptedIsBound` | src/protocol/deviceLinkV1.js:392-418 | whatever object is accepted is signed by its device for this account and this code's nonce, with its own binding, within its window |
| `LinkRequest.AcceptedForOneCode` | src/protocol/deviceLinkV1.js:392-418 | an object is accepted under one code only, unless the nonce derivation collides |
| `LinkRequest.DeviceIdBinds` | src/objects/device/DeviceRegistrationV1.js:125-128 | a device id stands for one device key, unless the hash collides |
| `DeviceLink.RequestOpens` | src/protocol/deviceLinkV1.js:260-431 | the approver opens the request the device built exactly within its window, with the same record and transcript |
| `DeviceLink.ResponseOpens` | src/protocol/deviceLinkV1.js:471-599 | the requester opens the given bundle, without its cached device set exactly when there is one and the payload with it is over 15000 |
| `DeviceLink.OpenedIsBound` | src/protocol/deviceLinkV1.js:543-599 | whatever response is opened carries a bundle of the own account without forbidden secrets, sealed for this account, meeting point, request and key under the own master secret |
| `DeviceLink.BundleRoundTrip` | src/protocol/deviceLinkV1.js:440-469 | a validated bundle, printed canonically and read back, validates to itself |
| `DeviceLink.HonestRun` | src/protocol/deviceLinkV1.js:260-632 | within the request's window an honest ceremony runs through, and the confirmation carries the approver's tag and is accepted |

## Left out

- Real cryptography (X25519, Ed25519, AES-GCM, HKDF, PBKDF2, scrypt) and DER key wrapping: foreign calls, modelled as functions with laws.
- UTF-8 decoding and the JSON parser: where messages are parsed, reading is a parameter assumed to invert the printer; `JsonReader` shows that a reader of JSON text, without white space and surrogate escapes, does. The onion and envelope codecs are parameters assumed to print and parse faithfully; `WireFormats` shows that the texts the source prints meet those assumptions, with endpoints and flags as opaque strings and no header links.
- Unicode normalization of mnemonics and lone surrogates in strings; `normalize` is a parameter.
- Interleavings of concurrent calls at await points on one session or mailbox.
- Floating-point rounding in token buckets and clocks: tokens are reals. Non-integer capacities and caps are not modelled.
- Envelopes that no peer sent and that open all the same: forgery resistance of the AEAD is not an assumption here. Those that do not open are part of the runs, except ones that announce a key whose hash collides with that of the peer's key.
- Snapshot export and import of sessions, JSON conversion of ratchet state, debug logging and the pre-key bundle generator.
- Further `rotateDh` calls after the handshake, and one-time pre-keys in `Establish`: the runs cover the handshake's own rotation.
- Choice of relay descriptors and key material by the onion encoder: the resolved public keys are the path.
- Mailbox.CapsHoldExactly: stores with an event under an empty id, which no deposit writes, are not covered.
- `sinceMs` filtering, waiters and deposit callbacks of the mailbox, and the file-system store.
- The numeric value of a JSON number token in link requests is a parameter; the read-aloud fingerprint of a device id is not modelled.
- Bip39.ValidateMnemonicOf: assumes that normalization leaves the generated mnemonic as it is, which holds for a word list of plain lower-case words.
- Authority: `certIdOf`, `deviceIdOf` and `signable` are parameters of the scheme; the hash-derived ids are compared as the source compares them. Argument type checks of the entry function are not modelled.
- `fnv1a64Hex`, the capability validator of older records, record validators (receipts, attestations, profiles, handles, descriptors, pricing, registration) and durable-record sealing: one reading settles each.
- `FileSystemDataStore`, transports, dispatchers, roles, loggers and `BridgeRouter`: input and output plumbing.
- Decryption of an empty payload reports nothing instead of an empty payload, as the source does; `Channel.Shown` states it.
