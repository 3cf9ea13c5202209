# Certificate trust, key files, sampling and game protocols

A Dafny model of the parts of the repository that decide something: which certificates are trusted,
how keys are written and read, which samples are kept, how signals travel, and when a match ends.
`dafny verify dfyconfig.toml` verifies everything.

## Certificate store

`AuthScope`, `Trust`, `TrustChains`, `TrustOrder`, `TrustCache`, `TrustScopes`, `StoreModel`,
`StoreInvariant`, `CertStore`, `StoreRuns`, `StoreAnswers`, `CertUse`, `TrustComplete`,
`TrustBranches`, `TrustExamples`.

Each public key holds certificates signed by other keys. A pass over the table marks keys as being
worked on, evaluates signers first, intersects authority along the way and chooses the newest valid
certificate. `Trust` gives that evaluation as functions on tables; `CertStore` gives it on objects
with the source's fields and proves each operation equal to its function. The proofs show, on any
graph, that trust always rests on a chain of verified certificates, and, for keys no signing cycle
reaches, that the verdict is the one of a declarative specification and so does not depend on the
order of the pass. `StoreRuns` is about whole runs of additions, revocations, resets and queries;
`TrustComplete` shows, for keys no signing cycle reaches, that a path of certificates to a root is all
it takes to be trusted.

An environment stands for what is outside: the hash giving a key its id, the signature check, the
parsing of certificate messages and the root compiled in, if there is one.

## Key files

`Base64`, `Base64Codec`, `Base64Meaning`, `Pem`, `ByteBuffer`, `OpenSsh`, `OpenSshCodec`, `KeyPair`, `KeyRoundTrip`.

A private key is written as an OpenSSH container, in base 64 with line breaks, between a BEGIN and an
END marker. Each layer has a specification, loops or buffer operations proved against it, a proof
that reading inverts writing, and exact sizes. They compose to one round trip over the whole file.

## Samples

`Reservoir`, `Percentile`.

The table of samples keeps a random subset of a stream. The claim that it is not biased is proved by
counting the sequences of random draws, also when the table is sorted between additions. Percentiles
are computed over `real`.

## Small protocols

`Signaling`, `SignalingClient`, `SignalingServer`, `SignalingDelivery`, `SignalingEndToEnd`, `SteamId`,
`SteamIdForms`, `EndOfMatch`, `Leaderboard`.

The signaling client and server, the text form of Steam ids, the game server's end of match and the
ordered list of results.

## Where the code is not what one might expect

- Two certificate lists that each hold the reserved item among others can intersect to that item
  alone, which means "all" (`AuthScope.MixedListsWiden`); `AuthScope.MeetExactness` says exactly when.
- Removing duplicates stops before the first two places, so the least item can stay twice
  (`AuthScope.SetupListCorrect`). Intersection is proved for such lists too.
- A revocation given to an empty store keeps the compiled-in root out until a reset
  (`StoreRuns.RootTrustedIff`).
- A certificate without a list of apps is let through for every app, even one its signers are not granted;
  only a message is left. The same goes for data centres (`CertUse.PermitsOnlyGrantedIff`).
- On a signing cycle the verdict depends on the order in which certificates were added
  (`TrustExamples.CycleOrderMatters`).
- The number parser for Steam ids can miss an overflow; `SteamId.OverLimitRefusedIff` says at exactly
  which limits. Rendered ids do not always parse back to themselves; `SteamId.RoundTripIff` says
  exactly which do.
- A signaling client that is asked for more than 32 lines before its socket takes the first gives up
  its greeting (`SignalingClient.GreetingWaits`), and the server takes its first signal for its name. It
  is then sent nothing, unless that signal is empty or its peer blank: with an empty one it is sent what
  is meant for its peer (`SignalingEndToEnd.GreetingGivenUp`).
- A match in which the last result cannot be handled never ends (`EndOfMatch.StuckForever`), and one
  in which a result of an unknown player was stored can end before every player has one
  (`EndOfMatch.EndCompleteIff`).

## Model

Paths are relative to the repository's root.

| member | source | states |
|---|---|---|
| `AuthScope.Setup` | GameNetworkingSockets/src/steamnetworkingsockets/steamnetworkingsockets_certstore.cpp:73-87 | the list is the sorted items with duplicates erased from the back, stopping before the first two places |
| `AuthScope.SetupListCorrect` | GameNetworkingSockets/src/steamnetworkingsockets/steamnetworkingsockets_certstore.cpp:73-87 | that list is sorted, holds exactly the given items, and repeats one only in its first two places, exactly when the least item was given more than once |
| `AuthScope.SetIntersection` | GameNetworkingSockets/src/steamnetworkingsockets/steamnetworkingsockets_certstore.cpp:28-70 | on lists that are not empty (unless the other means "all") the parallel scan stays in bounds and computes the meet |
| `AuthScope.SharedItemsCorrect` | GameNetworkingSockets/src/steamnetworkingsockets/steamnetworkingsockets_certstore.cpp:46-67 | of two sorted lists, repeats included, the scan yields their sorted multiset intersection, so exactly the common items |
| `AuthScope.MeetExactness` | GameNetworkingSockets/src/steamnetworkingsockets/steamnetworkingsockets_certstore.cpp:28-70 | the intersection authorises exactly what both lists authorise if and only if one of them is "all" or what they share is not a single reserved item |
| `AuthScope.MixedListsWiden` | GameNetworkingSockets/src/steamnetworkingsockets/steamnetworkingsockets_certstore.cpp:28-70 | the failing case: two proper lists that share only the reserved item intersect to "all" |
| `AuthScope.MeetUnmixed` | GameNetworkingSockets/src/steamnetworkingsockets/steamnetworkingsockets_certstore.cpp:28-70 | for lists holding the reserved item only as the mark for "all" the intersection is exact and of the same kind |
| `AuthScope.IntersectScopes` | GameNetworkingSockets/src/steamnetworkingsockets/steamnetworkingsockets_certstore.h:97-102 | apps and data centres are intersected, each pair as above, and the smaller expiry is taken |
| `Trust.Evaluate` | GameNetworkingSockets/src/steamnetworkingsockets/steamnetworkingsockets_certstore.cpp:411-564 | evaluating a key ends on every signer graph, decides the key unless it is being worked on, alters only keys whose trust was unknown and leaves the set of keys being worked on as it was |
| `TrustOrder.ScanCertSettles` | GameNetworkingSockets/src/steamnetworkingsockets/steamnetworkingsockets_certstore.cpp:435-540 | for a key no signing cycle reaches, looking at one more certificate keeps as choice the first of the newest valid ones among those looked at, if there is one, with the authority its signer leaves it; every signer met on the way is settled |
| `TrustScopes.EvaluateUsable` | GameNetworkingSockets/src/steamnetworkingsockets/steamnetworkingsockets_certstore.cpp:411-564 | while keys are evaluated every trusted key and every certificate keeps authority whose lists are sorted and not empty, so every pair of lists intersected on the way is a pair of lists that are not empty |
| `TrustChains.RecomputeSound` | GameNetworkingSockets/src/steamnetworkingsockets/steamnetworkingsockets_certstore.cpp:411-587 | on every graph, cyclic or not, each key left trusted has a chain without repetition of verified certificates, ending in the compiled-in root or, in a build without one, a self-signed key |
| `TrustChains.ChainIsTrusted` | GameNetworkingSockets/src/steamnetworkingsockets/steamnetworkingsockets_certstore.cpp:485-490 | every key on a chain is trusted, so none of them is revoked |
| `TrustChains.ScopeIsIntersection` | GameNetworkingSockets/src/steamnetworkingsockets/steamnetworkingsockets_certstore.cpp:504-539 | the effective authority of a key is the intersection of the authorities of the certificates chosen along its chain |
| `TrustChains.ChainUnexpired` | GameNetworkingSockets/src/steamnetworkingsockets/steamnetworkingsockets_certstore.cpp:628-633 | a key has not expired exactly when no certificate on its chain has |
| `TrustChains.ChainApps` | GameNetworkingSockets/src/steamnetworkingsockets/steamnetworkingsockets_certstore.h:65-70 | a key may act for an app if every certificate on its chain allows it; if each of them holds the reserved item only as the mark for "all", only then |
| `TrustChains.ChainPops` | GameNetworkingSockets/src/steamnetworkingsockets/steamnetworkingsockets_certstore.h:65-70 | the same for data centres |
| `TrustOrder.RecomputeSettles` | GameNetworkingSockets/src/steamnetworkingsockets/steamnetworkingsockets_certstore.cpp:434-587 | after a pass every key that no signing cycle reaches meets the specification: all its signers decided, the first of its newest valid certificates chosen, and trusted if and only if it has a valid one |
| `TrustOrder.SettledUnique` | GameNetworkingSockets/src/steamnetworkingsockets/steamnetworkingsockets_certstore.cpp:434-563 | the specification determines the state of such a key |
| `TrustOrder.VerdictIsLocal` | GameNetworkingSockets/src/steamnetworkingsockets/steamnetworkingsockets_certstore.cpp:434-587 | the verdict on such a key depends only on the keys its signers lead to, in any table and any order |
| `TrustOrder.OrderIndependent` | GameNetworkingSockets/src/steamnetworkingsockets/steamnetworkingsockets_certstore.cpp:579-583 | the pass gives such a key the same trust, certificate and authority in every iteration order |
| `TrustExamples.CycleOrderMatters` | GameNetworkingSockets/src/steamnetworkingsockets/steamnetworkingsockets_certstore.cpp:474-480 | on a signing cycle the verdict does depend on the order: two runs of the store that add the same three certificates and then ask leave a key trusted in one and not trusted in the other |
| `TrustExamples.CycleIsNotGrounded` | GameNetworkingSockets/src/steamnetworkingsockets/steamnetworkingsockets_certstore.cpp:474-480 | the table of those runs is one the order theorem does not cover, although every key holds a certificate |
| `TrustOrder.RecomputeShape` | GameNetworkingSockets/src/steamnetworkingsockets/steamnetworkingsockets_certstore.cpp:566-587 | a pass decides every key, and changes no certificate, public key or terminal state |
| `TrustCache.RecomputeDeterminedByGraph` | GameNetworkingSockets/src/steamnetworkingsockets/steamnetworkingsockets_certstore.cpp:572-583 | whatever trust was stored before, the pass depends only on the certificates, public keys and terminal states |
| `TrustCache.RecomputeIdempotent` | GameNetworkingSockets/src/steamnetworkingsockets/steamnetworkingsockets_certstore.cpp:566-587 | recomputing what was just recomputed changes nothing, on cyclic graphs too |
| `TrustBranches.ReachablePassClean` | GameNetworkingSockets/src/steamnetworkingsockets/steamnetworkingsockets_certstore.cpp:411-432 | from every reachable state, a pass never starts an evaluation on a key being worked on and never finds a key without certificates, anywhere in its recursion; those two branches are not reached |
| `StoreInvariant.AddCertKeeps` | GameNetworkingSockets/src/steamnetworkingsockets/steamnetworkingsockets_certstore.cpp:336-398 | adding a certificate, whatever the message, keeps the store invariant |
| `StoreInvariant.AddedTwice` | GameNetworkingSockets/src/steamnetworkingsockets/steamnetworkingsockets_certstore.cpp:370-381 | adding a certificate again is accepted and changes nothing, so trust need not be recomputed |
| `StoreInvariant.RevocationKeeps` | GameNetworkingSockets/src/steamnetworkingsockets/steamnetworkingsockets_certstore.cpp:308-334 | so does a revocation |
| `StoreInvariant.EnsureKeeps` | GameNetworkingSockets/src/steamnetworkingsockets/steamnetworkingsockets_certstore.cpp:566-587 | so does bringing trust up to date, which sets the flag; the rows below speak of the states that leaves |
| `StoreRuns.CacheIsFresh` | GameNetworkingSockets/src/steamnetworkingsockets/steamnetworkingsockets_certstore.cpp:302-398 | after any run of adds, revocations, resets and queries, a table flagged as valid is what recomputing it would give; for keys no cycle reaches, in any order |
| `StoreRuns.QueriedSound` | GameNetworkingSockets/src/steamnetworkingsockets/steamnetworkingsockets_certstore.cpp:566-587 | there every trusted key has a chain and every key a verdict |
| `TrustComplete.TrustedIffVouched` | GameNetworkingSockets/src/steamnetworkingsockets/steamnetworkingsockets_certstore.cpp:434-563 | a key that no signing cycle reaches is trusted if and only if a path of certificates, chosen or not, each verifying under the next key and leaving some authority, leads from it over keys that are not revoked to the root or, in a build without one, to a self-signed key; on cyclic graphs every trusted key has such a path |
| `StoreRuns.TrustedIffUnexpiredChain` | GameNetworkingSockets/src/steamnetworkingsockets/steamnetworkingsockets_certstore.cpp:620-633 | a key is trusted and not expired exactly when the certificates chosen for it and for their signers form a verified chain to an anchor on which none has expired; as to trust itself this gives soundness, completeness is the row above |
| `TrustComplete.CASignatureAcceptedIffVouched` | GameNetworkingSockets/src/steamnetworkingsockets/steamnetworkingsockets_certstore.cpp:589-650 | a signature by a CA key no cycle reaches is accepted if and only if it verifies under that key, such a path leads from the key to a root, and the authority of the key has not expired |
| `StoreRuns.CASignatureAccepted` | GameNetworkingSockets/src/steamnetworkingsockets/steamnetworkingsockets_certstore.cpp:589-650 | on any graph, a CA signature is accepted exactly when it verifies under that key and no certificate on the chain of those chosen for it has expired |
| `TrustComplete.PublicKeyAcceptedIffVouched` | GameNetworkingSockets/src/steamnetworkingsockets/steamnetworkingsockets_certstore.cpp:706-731 | a public key no cycle reaches is accepted if and only if such a path leads from it to a root and its authority has not expired |
| `StoreRuns.PublicKeyAccepted` | GameNetworkingSockets/src/steamnetworkingsockets/steamnetworkingsockets_certstore.cpp:706-731 | on any graph, a public key is accepted exactly when no certificate on the chain of those chosen for it has expired |
| `StoreRuns.CertAccepted` | GameNetworkingSockets/src/steamnetworkingsockets/steamnetworkingsockets_certstore.cpp:652-704 | a certificate is accepted exactly when its signature is, it parses, has not expired, is for an Ed25519 key and its own key is not revoked |
| `StoreAnswers.AuthorityUnique` | GameNetworkingSockets/src/steamnetworkingsockets/steamnetworkingsockets_certstore.cpp:504-539 | the authority met along a chain from a key is the one stored for the key, whichever chain is taken |
| `StoreAnswers.SignatureAnswer` | GameNetworkingSockets/src/steamnetworkingsockets/steamnetworkingsockets_certstore.cpp:589-650 | the authority answered for a signature is the intersection along a chain from the CA key |
| `StoreAnswers.CertAnswer` | GameNetworkingSockets/src/steamnetworkingsockets/steamnetworkingsockets_certstore.cpp:652-704 | so is the one answered for a certificate |
| `StoreAnswers.PublicKeyAnswer` | GameNetworkingSockets/src/steamnetworkingsockets/steamnetworkingsockets_certstore.cpp:706-731 | and the one answered for a public key is the intersection along a chain from that key |
| `CertUse.CheckCertAppID` | GameNetworkingSockets/src/steamnetworkingsockets/steamnetworkingsockets_certstore.cpp:733-767 | a certificate permits an app if it lists none, or if it lists it and the authority granted to its signer, if given, allows it |
| `CertUse.CheckCertPOPID` | GameNetworkingSockets/src/steamnetworkingsockets/steamnetworkingsockets_certstore.cpp:769-805 | the same for data centres |
| `CertUse.PermitsOnlyGrantedIff` | GameNetworkingSockets/src/steamnetworkingsockets/steamnetworkingsockets_certstore.cpp:736-761 | whatever a certificate permits is allowed by the authority granted if and only if the certificate has a list or that authority is "all"; a certificate without one is let through with only a message |
| `CertUse.AppPermittedIff` | GameNetworkingSockets/src/steamnetworkingsockets/steamnetworkingsockets_certstore.cpp:652-767 | an accepted certificate that lists apps permits exactly those it lists that every certificate on the chain vouching for it allows, if none of these mixes the reserved item with others |
| `CertUse.PopPermittedIff` | GameNetworkingSockets/src/steamnetworkingsockets/steamnetworkingsockets_certstore.cpp:652-805 | the same for data centres |
| `StoreAnswers.SignatureRefusal` | GameNetworkingSockets/src/steamnetworkingsockets/steamnetworkingsockets_certstore.cpp:589-650 | each reason for refusing a signature is given exactly when it is the first that applies; the CA key is untrusted exactly if no chain leads from it, and expired exactly if the chain that does has expired |
| `StoreAnswers.CertRefusal` | GameNetworkingSockets/src/steamnetworkingsockets/steamnetworkingsockets_certstore.cpp:652-704 | a certificate is refused for what is wrong with its signature, else for the first fault of its own that applies |
| `StoreAnswers.PublicKeyRefusal` | GameNetworkingSockets/src/steamnetworkingsockets/steamnetworkingsockets_certstore.cpp:706-731 | a public key is refused as revoked if it was revoked, as untrusted if no chain leads from it, and as expired if the chain that does has expired |
| `StoreAnswers.ChainSaysSo` | GameNetworkingSockets/src/steamnetworkingsockets/steamnetworkingsockets_certstore.cpp:151-220 | each certificate on a chain was parsed from signed bytes that name the key it is used for, allow exactly the apps and data centres it grants, an empty list all of them, and say when it was made and when it expires |
| `StoreRuns.StaysRevoked` | GameNetworkingSockets/src/steamnetworkingsockets/steamnetworkingsockets_certstore.cpp:308-334 | a revoked key stays revoked until a reset, in every run |
| `StoreRuns.RevokedOnNoChain` | GameNetworkingSockets/src/steamnetworkingsockets/steamnetworkingsockets_certstore.cpp:308-334 | so after a revocation no accepted chain runs through that key |
| `StoreRuns.RootTrustedIff` | GameNetworkingSockets/src/steamnetworkingsockets/steamnetworkingsockets_certstore.cpp:283-334 | with a compiled-in root, the root is trusted after a run exactly if the run neither starts with a revocation nor revokes the root |
| `StoreRuns.TrustNeedsRoot` | GameNetworkingSockets/src/steamnetworkingsockets/steamnetworkingsockets_certstore.cpp:456-466 | without its root such a build trusts no key |
| `CertStore.CertFrom` | GameNetworkingSockets/src/steamnetworkingsockets/steamnetworkingsockets_certstore.cpp:151-220 | the message is taken apart with the source's checks in its order |
| `StoreAnswers.SetupCertIff` | GameNetworkingSockets/src/steamnetworkingsockets/steamnetworkingsockets_certstore.cpp:151-220 | a message is taken exactly if it has signed bytes and a signature of 64, and the bytes are a certificate for an Ed25519 key of 32 bytes, not bound to an identity, with an expiry; what is stored is what it says |
| `CertStore.Store.AddKeyRevocation` | GameNetworkingSockets/src/steamnetworkingsockets/steamnetworkingsockets_certstore.cpp:308-334 | on objects: the new state is the one the model gives |
| `CertStore.Store.AddCert` | GameNetworkingSockets/src/steamnetworkingsockets/steamnetworkingsockets_certstore.cpp:336-398 | on objects: the new state and the answer are the ones the model gives |
| `StoreAnswers.AddedCert` | GameNetworkingSockets/src/steamnetworkingsockets/steamnetworkingsockets_certstore.cpp:336-398 | a message is accepted exactly if no other public key has the id of its key; then the certificate comes after those the key had, unless its signature was known, and no other key changes |
| `StoreAnswers.RevokingAndAddingCommute` | GameNetworkingSockets/src/steamnetworkingsockets/steamnetworkingsockets_certstore.cpp:308-398 | in a store that is not empty, revoking a key before or after a certificate is added makes no difference to the table, the flag and the answer |
| `CertStore.Store.RecursiveEvaluateKeyTrust` | GameNetworkingSockets/src/steamnetworkingsockets/steamnetworkingsockets_certstore.cpp:411-564 | on objects: the new table is the evaluated one, and every intersection made is of lists that are not empty |
| `CertStore.Store.EnsureTrustValid` | GameNetworkingSockets/src/steamnetworkingsockets/steamnetworkingsockets_certstore.cpp:566-587 | on objects: the store is brought up to date as the model says, and keeps its invariant |
| `CertStore.Store.CheckCASignature` | GameNetworkingSockets/src/steamnetworkingsockets/steamnetworkingsockets_certstore.cpp:589-650 | on objects: trust is brought up to date and the answer is the verdict on the new table |
| `CertStore.Store.CheckCert` | GameNetworkingSockets/src/steamnetworkingsockets/steamnetworkingsockets_certstore.cpp:652-704 | the same for a certificate |
| `CertStore.Store.CheckPublicKey` | GameNetworkingSockets/src/steamnetworkingsockets/steamnetworkingsockets_certstore.cpp:706-731 | the same for a public key |
| `Base64.RoundTrip` | GameNetworkingSockets/src/common/crypto_textencode.cpp:190-282 | decoding the encoding of any bytes gives them back, strictly or leniently, for every line break the decoder passes over, none, line feed and carriage return with line feed among them by `UsualLineBreaks` (section 4 of RFC 4648) |
| `Base64.FirstLine` | GameNetworkingSockets/src/common/crypto_textencode.cpp:209-262 | longer data is a first line of 72 characters, a line break, and the rest encoded alike |
| `Base64.LastLine` | GameNetworkingSockets/src/common/crypto_textencode.cpp:209-282 | data that fits on a line is one line ended by a line break |
| `Base64.AnnouncedSizeExact` | GameNetworkingSockets/src/common/crypto_textencode.cpp:150-156 | for data that is not empty and sizes that fit 32 bits the announced size is exactly that of the text and its terminator |
| `Base64.DecodedSize` | GameNetworkingSockets/src/common/crypto_textencode.cpp:554-562 | a decoded text is at most three quarters as long, rounded down |
| `Base64Meaning.InAlphabet` | GameNetworkingSockets/src/common/crypto_textencode.cpp:336-350 | the letters for 0 to 63 are A to Z, a to z, 0 to 9, plus and slash |
| `Base64Meaning.EncodedMeans` | GameNetworkingSockets/src/common/crypto_textencode.cpp:209-282 | the letters written carry the bits of the data six at a time, the last filled with zeros, and padding makes their number a multiple of four |
| `Base64Meaning.DecodedMeans` | GameNetworkingSockets/src/common/crypto_textencode.cpp:320-432 | a text is taken exactly if only letters and white space come before the first padding or terminator, or any character when leniently read; the bytes are the bits of those letters, and bits short of a byte are dropped |
| `Base64Codec.Base64Encode` | GameNetworkingSockets/src/common/crypto_textencode.cpp:190-290 | encoding into a buffer succeeds exactly if the text and terminator fit, then writes exactly them; without a buffer the size is announced |
| `Base64Codec.SentinelRange` | GameNetworkingSockets/src/common/crypto_textencode.cpp:352-415 | k pending digits after the leading one bit give a number from 64^k up to but not including twice that |
| `Base64Codec.Base64Decode` | GameNetworkingSockets/src/common/crypto_textencode.cpp:320-432 | decoding succeeds exactly if no invalid character comes first and the bytes fit; a size query without a buffer accepts the same texts and counts the same bytes |
| `Pem.ParseHeaderOrFooter` | GameNetworkingSockets/src/common/crypto_textencode.cpp:434-514 | the marker is recognised and passed as the specification says |
| `Pem.LocatePEMBody` | GameNetworkingSockets/src/common/crypto_textencode.cpp:517-551 | the body found is the one between the BEGIN marker and the first dash with an END marker after it |
| `Pem.MarkerIff` | GameNetworkingSockets/src/common/crypto_textencode.cpp:434-514 | a marker is found and passed up to a place exactly if the text splits into space, dashes, blanks, the word in any case, blanks, a name that starts with the type in any case, dashes and space up to there |
| `Pem.BodyIff` | GameNetworkingSockets/src/common/crypto_textencode.cpp:517-551 | a body is found exactly between a BEGIN marker and, at the first dash after it, an END marker, both of the type asked for |
| `Pem.MarkerFound` | GameNetworkingSockets/src/common/crypto_textencode.cpp:434-514 | a marker is found where it stands, with space before it, and the space behind it is passed |
| `Pem.FramedBodyFound` | GameNetworkingSockets/src/common/crypto_textencode.cpp:517-551 | a body without dashes that starts with something other than space is found exactly, between its markers, whatever space surrounds the first and whatever follows the second |
| `Pem.Characters` | GameNetworkingSockets/src/common/crypto_textencode.cpp:434-514 | the characters that count as space, blanks and parts of a type, and the letters that are equal but for case |
| `ByteBuffers.ByteBuffer.Put` | GameNetworkingSockets/src/tier1/utlbuffer.cpp:1236-1246 | bytes are appended |
| `ByteBuffers.ByteBuffer.Get` | GameNetworkingSockets/src/tier1/utlbuffer.cpp:344-356 | bytes are read and passed if there are enough of them, otherwise nothing is |
| `OpenSshCodec.EndSubBlock` | GameNetworkingSockets/src/common/keypair.cpp:173-185 | the length left open is filled in with the number of bytes written since, whatever the gap held |
| `OpenSshCodec.WriteEd25519Private` | GameNetworkingSockets/src/common/keypair.cpp:187-232 | what is written is the container for the key, whose strings follow section 5 of RFC 4251 and whose public key follows section 4 of RFC 8709 |
| `OpenSshCodec.ParseEd25519Private` | GameNetworkingSockets/src/common/keypair.cpp:70-171 | reading through the buffer and the two buffers for its blocks yields what the specification parses |
| `OpenSsh.ParsedIff` | GameNetworkingSockets/src/common/keypair.cpp:70-171 | the parser accepts exactly the format, with any check number given twice and any bytes after the public key, after the secret and after the blocks |
| `OpenSsh.FixedParts` | GameNetworkingSockets/src/common/keypair.cpp:42-104 | the constants are the name of the format, no cipher and no key derivation, one key, and the type "ssh-ed25519", as strings of section 5 of RFC 4251 |
| `OpenSsh.U32Positions` | GameNetworkingSockets/src/common/keypair.cpp:25-38 | numbers are written with the most significant byte first |
| `OpenSsh.ContainerRoundTrip` | GameNetworkingSockets/src/common/keypair.cpp:70-232 | what is written for a key is parsed as that key followed by its public key |
| `OpenSsh.WrittenWhere` | GameNetworkingSockets/src/common/keypair.cpp:187-232 | what is written holds the public key three times, the private key once and the check number twice, each at its place |
| `KeyPair.DecodeBase64ToBuf` | GameNetworkingSockets/src/common/crypto_textencode.cpp:554-562 | the buffer holds the decoded bytes if they fit the room made for them, and nothing otherwise |
| `KeyPair.CapacitySuffices` | GameNetworkingSockets/src/common/crypto_textencode.cpp:554-562 | that room always suffices unless three times the text size exceeds 32 bits |
| `KeyPair.GetBinaryDataAsPEM` | GameNetworkingSockets/src/common/keypair.cpp:253-278 | the text is written completely or cut off before the terminator, as size and announced size allow; a buffer smaller than announced is not touched |
| `KeyPair.PEMSizeExact` | GameNetworkingSockets/src/common/keypair.cpp:253-257 | the announced size is exactly that of the text and its terminator, if that fits 32 bits |
| `KeyPair.KeyTextSize` | GameNetworkingSockets/tests/test_crypto.cpp:466-472 | the text for a key always has 382 characters, so 383 are announced |
| `KeyPair.SigningPrivateKey.GetAsPEM` | GameNetworkingSockets/src/common/keypair.cpp:556-568 | a valid key is written as its text exactly if the buffer has room, and the count is that of the text and terminator |
| `KeyPair.SigningPrivateKey.SetRawDataAndWipeInput` | GameNetworkingSockets/src/common/keypair.cpp:299-310 | the first bytes of the input are taken as the key if there are 32 of them, otherwise no key is held; either way they are overwritten with zeros while the others stay |
| `KeyPair.SigningPrivateKey.ParsePEM` | GameNetworkingSockets/src/common/keypair.cpp:577-599 | a key is taken exactly if the text holds one whose public half is the one computed from it; otherwise no key is held |
| `KeyRoundTrip.PEMRoundTrip` | GameNetworkingSockets/src/common/crypto_textencode.cpp:517-571 | data written in base 64 between markers is found again for any space as line break and around the first marker, whatever follows |
| `KeyRoundTrip.StoredKeyRead` | GameNetworkingSockets/src/common/keypair.cpp:577-599 | a key stored in any such layout is read back exactly if the public key stored with it is its own |
| `KeyRoundTrip.KeyFoundIff` | GameNetworkingSockets/src/common/keypair.cpp:556-599 | a text carries a key exactly if its beginning, as far as 32 bits count it, holds base 64 between markers that fits the room made for it and decodes to a container of the key and its own public key |
| `KeyRoundTrip.KeyRoundTrips` | GameNetworkingSockets/src/common/keypair.cpp:556-599 | parsing the text written for a key gives back that key, whatever follows the text |
| `KeyRoundTrip.CopyThroughText` | GameNetworkingSockets/tests/test_crypto.cpp:464-479 | a key written by one object and read by another, terminator included, arrives as it was |
| `Reservoir.EveryPositionEqually` | GameNetworkingSockets/src/common/percentile_generator.h:70-99 | over all sequences of random draws for a stream of n items, each position is kept in exactly max of every n of them, even if the table is rearranged between additions, whenever and however that depends on the draws so far |
| `Reservoir.EverySubsetEqually` | GameNetworkingSockets/src/common/percentile_generator.h:84-96 | every subset of max positions is what is kept after equally many sequences of draws, (n - max)! of them |
| `Reservoir.AllDraws` | GameNetworkingSockets/src/common/percentile_generator.h:70-99 | there are n! / max! sequences of draws |
| `Reservoir.RetainedDistinct` | GameNetworkingSockets/src/common/percentile_generator.h:70-99 | the table holds different positions of the stream |
| `Percentile.PercentileGenerator.AddSample` | GameNetworkingSockets/src/common/percentile_generator.h:70-99 | the sample is appended while there is room and afterwards replaces the slot drawn, if there is one; the positions held change alike |
| `Percentile.PercentileGenerator.Sort` | GameNetworkingSockets/src/common/percentile_generator.h:101-110 | the samples are put in ascending order, and skipping that when the flag allows it gives the same |
| `Percentile.PercentileGenerator.GetPercentile` | GameNetworkingSockets/src/common/percentile_generator.h:112-143 | the answer is the percentile of the samples in order |
| `Percentile.BetweenNeighbours` | GameNetworkingSockets/src/common/percentile_generator.h:129-142 | the estimate lies between the order statistics next to the fractional index |
| `Percentile.PercentileMonotone` | GameNetworkingSockets/src/common/percentile_generator.h:112-143 | a greater percentile never gives a smaller estimate |
| `Percentile.PercentileOfSample` | GameNetworkingSockets/src/common/percentile_generator.h:129-142 | at the percentile of one of the samples the estimate is that sample |
| `Percentile.PercentileWeighted` | GameNetworkingSockets/src/common/percentile_generator.h:129-142 | between two neighbouring samples the estimate is their average weighted by nearness; below 0 it is the first sample, from 1 on the last |
| `Percentile.PercentileOutside` | GameNetworkingSockets/src/common/percentile_generator.h:119-136 | without samples the estimate is 0, from percentile 0 down the first sample and from 1 up the last |
| `Percentile.Collect` | GameNetworkingSockets/src/common/percentile_generator.h:70-143 | a whole stream added with queries in between, at times that may depend on the draws so far, leaves the table the counting theorems speak about |
| `Signaling.HexDecodeExact` | GameNetworkingSockets/examples/trivial_signaling_client.cpp:297-313 | decoding succeeds exactly if all whole pairs are hex digits, and then yields the bytes those pairs encode |
| `Signaling.HexDigitIs` | GameNetworkingSockets/examples/trivial_signaling_client.cpp:47-102 | digits are written in lower case and read in either |
| `Signaling.PayloadIff` | GameNetworkingSockets/examples/trivial_signaling_client.cpp:289-313 | a line has the payload that the hex digits behind its first space spell, and none without a space |
| `Signaling.DispatchedAppend` | GameNetworkingSockets/examples/trivial_signaling_client.cpp:283-373 | text that comes in two parts is dispatched as if it came in one |
| `Signaling.ChunkingIrrelevant` | GameNetworkingSockets/examples/trivial_signaling_client.cpp:228-248 | what is dispatched depends on the concatenated stream only, not on how it is split |
| `Signaling.SignalDispatched` | GameNetworkingSockets/examples/trivial_signaling_client.cpp:81-102 | a signal at the head of the buffer is dispatched as the message it was made from |
| `SignalingClient.EncodeSignal` | GameNetworkingSockets/examples/trivial_signaling_client.cpp:81-102 | the loop produces the peer, a space and two digits a byte |
| `SignalingClient.DecodePayload` | GameNetworkingSockets/examples/trivial_signaling_client.cpp:301-313 | the loop decodes the payload or stops at a character that is no digit |
| `SignalingClient.Client.Send` | GameNetworkingSockets/examples/trivial_signaling_client.cpp:183-202 | the line is queued last and the oldest is given up if more than 32 wait; the lines sent stay a subsequence of those asked for |
| `SignalingClient.GreetingWaits` | GameNetworkingSockets/examples/trivial_signaling_client.cpp:151-202 | before the socket takes the first line, the greeting waits with up to 32 further lines, and from the next one on it has been given up |
| `SignalingClient.Client.Flush` | GameNetworkingSockets/examples/trivial_signaling_client.cpp:251-276 | as many lines as the socket takes are sent in order; one sent in part closes the connection |
| `SignalingClient.SentIs` | GameNetworkingSockets/examples/trivial_signaling_client.cpp:251-276 | as many lines go out as calls take one whole before the first that stops the sending; the connection breaks exactly if that one took a line in part |
| `SignalingClient.ReceivedIs` | GameNetworkingSockets/examples/trivial_signaling_client.cpp:228-248 | the text received is that of the calls before the first that gives none, and the socket is lost exactly if that one failed |
| `SignalingClient.Client.Poll` | GameNetworkingSockets/examples/trivial_signaling_client.cpp:220-374 | on a socket that stays open the text received is added, a first part of the queue is sent and nothing is given up; always, the lines asked for since the socket was opened are those sent, in order but for the number given up, followed by those waiting, and what was handed on is what the text received dispatches |
| `SignalingClient.NoneDropped` | GameNetworkingSockets/examples/trivial_signaling_client.cpp:183-276 | if no line was given up, the lines sent and waiting are exactly those asked for |
| `SignalingServer.RoutedToNewest` | GameNetworkingSockets/examples/trivial_signaling_server.go:76-104 | in every run a name leads to the last connection that gave it, unless that one has left; a replaced connection that leaves later changes nothing |
| `SignalingServer.ReplacedIsClosed` | GameNetworkingSockets/examples/trivial_signaling_server.go:82-86 | in every run a connection that gave a name is the one the name leads to, or it is closed |
| `SignalingServer.WhiteIff` | GameNetworkingSockets/examples/trivial_signaling_server.go:72-113 | what is trimmed from names is the white space of Unicode |
| `SignalingServer.Server.HandleLine` | GameNetworkingSockets/examples/trivial_signaling_server.go:106-127 | the line is forwarded to the connection its first word names, with the sender in front, or dropped |
| `SignalingServer.LinesOfSent` | GameNetworkingSockets/examples/trivial_signaling_server.go:90-91 | the lines one side sends are the lines the other side reads |
| `SignalingDelivery.WrittenIsForwarded` | GameNetworkingSockets/examples/trivial_signaling_server.go:67-127 | in every run, whatever names and lines are read, the text written to a connection is, line by line, what others sent to a name while it was the newest under it and had given that name in full |
| `SignalingDelivery.Faithful` | GameNetworkingSockets/examples/trivial_signaling_server.go:106-127 | if names hold no space, as the protocol demands, and no line feed, the payloads forwarded to a connection are exactly the messages meant for it, in order, cut-off greetings included |
| `SignalingDelivery.SpacedNameUnreachable` | GameNetworkingSockets/examples/trivial_signaling_server.go:19-20 | a connection whose name holds a space is never sent anything |
| `SignalingDelivery.ArrivesInOrder` | GameNetworkingSockets/examples/trivial_signaling_client.cpp:283-373 | in every run, whatever part of the text written has arrived and in whatever pieces, the first of the payloads forwarded have been handed on, and all of them when all has arrived |
| `SignalingEndToEnd.ClientSpeaks` | GameNetworkingSockets/examples/trivial_signaling_client.cpp:161-202 | a client asked to send a greeting and then signals sends just that, a name first and signals after, unless the greeting was given up |
| `SignalingEndToEnd.EndToEnd` | GameNetworkingSockets/examples/trivial_signaling_client.cpp:81-373 | clients with open sockets, and sockets closed since, a server that has read any part of what was sent on them and a receiving client that has received any part of what was written: on each connection the server dealt with the first of the lines sent, and the receiver has handed on the first of the payloads forwarded to it, in order; all of them when all has arrived |
| `SignalingEndToEnd.MessagesEndToEnd` | GameNetworkingSockets/examples/trivial_signaling_client.cpp:81-373 | if each client was asked for its name and then signals, and did not give up its name, those payloads are exactly the messages meant for the receiver |
| `SignalingEndToEnd.GreetingGivenUp` | GameNetworkingSockets/examples/trivial_signaling_server.go:65-127 | if a client's greeting is given up and a signal comes first, the server takes the signal for its name; that nothing is forwarded there in any run holds if and only if the signal holds a message and its peer is not blank; an empty message makes the client take its peer's name |
| `SteamId.DecimalExact` | GameNetworkingSockets/src/common/steamid.cpp:16-49 | the number read is the value of the digits exactly if there are digits and their value is within the limit |
| `SteamId.OverLimitRefusedIff` | GameNetworkingSockets/src/common/steamid.cpp:16-49 | every value over the limit is refused if and only if ten times the limit plus nine fits 64 bits |
| `SteamId.OverLimitNoticed` | GameNetworkingSockets/src/common/steamid.cpp:32-37 | one half: with that room no text over the limit is read |
| `SteamId.OverflowUnnoticed` | GameNetworkingSockets/src/common/steamid.cpp:24-30 | the other: at every limit without that room the digits of 2^64 are read as zero |
| `SteamId.RoundTripIff` | GameNetworkingSockets/src/common/steamid.cpp:232-556 | parsing a rendered id strictly gives it back exactly if its universe is one the parser takes and its instance is printed or implied |
| `SteamId.RenderingInjective` | GameNetworkingSockets/src/common/steamid.cpp:485-556 | such ids have different texts |
| `SteamId.GameServerInstanceLost` | GameNetworkingSockets/src/common/steamid.cpp:275-277 | a game server's instance of zero is read back as one |
| `SteamIdForms.PackedFields` | GameNetworkingSockets/include/steam/steamclientpublic.h:596-599 | the number of an id gives back its fields |
| `SteamIdForms.PlainNumber` | GameNetworkingSockets/src/common/steamid.cpp:437-450 | a plain number is an individual's account if it fits 32 bits and otherwise an id as one number |
| `SteamIdForms.PlainId` | GameNetworkingSockets/src/common/steamid.cpp:443-450 | the number of an id is read as that id, if it does not fit 32 bits |
| `SteamIdForms.Spellings` | GameNetworkingSockets/src/common/steamid.cpp:254-335 | brackets or none, and a colon, a dash or nothing after the letter, make no difference |
| `SteamIdForms.OneNumber` | GameNetworkingSockets/src/common/steamid.cpp:437-455 | one number after a letter is an account of 32 bits in the default universe |
| `SteamIdForms.TwoNumbers` | GameNetworkingSockets/src/common/steamid.cpp:414-436 | two are universe below 5 and account, universe 0 being the default one; anything larger is refused |
| `SteamIdForms.ThreeNumbers` | GameNetworkingSockets/src/common/steamid.cpp:403-413 | a third is the instance, of 20 bits, for the two anonymous letters; the other letters refuse it |
| `SteamIdForms.InstanceInParentheses` | GameNetworkingSockets/src/common/steamid.cpp:350-381 | an anonymous game server's instance may stand in parentheses instead, behind universe and account; another id's may not |
| `SteamIdForms.InstanceBehind` | GameNetworkingSockets/src/common/steamid.cpp:350-381 | or behind the account alone |
| `SteamIdForms.InstanceTwice` | GameNetworkingSockets/src/common/steamid.cpp:350-413 | but not behind a third number |
| `SteamIdForms.LetterKinds` | GameNetworkingSockets/src/common/steamid.cpp:254-335 | each letter stands for its account type, instance and number of values; any other character for none |
| `SteamIdForms.LetterWritten` | GameNetworkingSockets/src/common/steamid.cpp:485-556 | each account type is written with its letter, a chat with that of its flags, the clan one first |
| `SteamIdForms.NothingElse` | GameNetworkingSockets/src/common/steamid.cpp:245-395 | every text taken is a known letter or none, numbers and separators, and the bracket that was opened, with nothing behind |
| `SteamId.SteamID.Render` | GameNetworkingSockets/src/common/steamid.cpp:485-556 | the text is the one for the id held |
| `SteamId.SteamID.SetFromStringStrict` | GameNetworkingSockets/src/common/steamid.cpp:232-477 | the id is set to what the text stands for, or cleared |
| `EndOfMatch.Server.HandleReceivePlayerResult` | Assets/Networking/serverHandler.cs:830-885 | the result is stored unless there is one; a step that then fails stays stored but makes no check |
| `EndOfMatch.EndScheduledIff` | Assets/Networking/serverHandler.cs:829-984 | in every run in which no player enters or leaves the table, whoever sends results, the end is scheduled at most once, and exactly if a step stored a result, made the check and found as many results as players |
| `EndOfMatch.EndCompleteIff` | Assets/Networking/serverHandler.cs:829-984 | a step that schedules the end leaves a result for every player if and only if no step so far stored a result of an unknown player |
| `EndOfMatch.NeverEarly` | Assets/Networking/serverHandler.cs:829-984 | so without such results the end is never scheduled before every player has one |
| `EndOfMatch.StuckIff` | Assets/Networking/serverHandler.cs:852-879 | there are as many results as players and no end is scheduled exactly after a step that stored the last result but could not handle it |
| `EndOfMatch.StuckForever` | Assets/Networking/serverHandler.cs:829-984 | and then the match never ends |
| `EndOfMatch.EndsCounted` | Assets/Networking/serverHandler.cs:376-984 | in every run, players entering and leaving or not, the ends that came and those still scheduled are together as many as the steps that made results as many as players and handled their result |
| `EndOfMatch.LeaverBlocksEnd` | Assets/Networking/serverHandler.cs:757-776 | from a lobby on: a player who leaves and whose death is reported last, by another client, brings that about |
| `EndOfMatch.UnknownResultEndsEarly` | Assets/Networking/serverHandler.cs:852-854 | from a lobby on: a result of an unknown player ends the match before a known one has a result |
| `EndOfMatch.ResultStays` | Assets/Networking/serverHandler.cs:829-885 | a result once stored stays as it is in every run |
| `EndOfMatch.ResultBrought` | Assets/Networking/serverHandler.cs:829-984 | the result held for a player is one that was delivered for that player when none was held |
| `EndOfMatch.ConnectedIff` | Assets/Networking/serverHandler.cs:715-776 | in every run each player who joined as someone new and has not left since is on the list of connections once, and nobody else |
| `EndOfMatch.PlayersIff` | Assets/Networking/serverHandler.cs:376-800 | in every run: the game is on since it was started, unless a lobby was opened or a delayed check ended it; a player who joined, moved or hosts is in the table until leaving outside a game; the object comes with the start or the first move and goes with leaving or a result |
| `Leaderboard.ResultsDisplay.InsertResult` | Assets/Scripts/UI/ResultsDisplay.cs:38-70 | a player's first result is put before the first lower one; further results change nothing |
| `Leaderboard.ListIsRanking` | Assets/Scripts/UI/ResultsDisplay.cs:38-75 | for any deliveries, lost, repeated or reordered, the list holds each player's first result once, by descending score, equal scores in the order they came |
| `Leaderboard.RankingUnique` | Assets/Scripts/UI/ResultsDisplay.cs:38-75 | there is only one such list |
| `Leaderboard.OnlyFirstsMatter` | Assets/Scripts/UI/ResultsDisplay.cs:38-75 | two series of deliveries with the same first results, in the same order, give the same list |

## Left out

- Cryptography: hashes, Ed25519 and the key derivation are functions of which nothing is known but the size of a public key.
- The base 64 and protocol buffer decoding of certificate messages; the model starts from a decoded message or none.
- Status messages, debug assertions and the per-certificate trust mark, which nothing reads back. One assertion, on strictly ascending items during intersection, fails on the leading duplicate that setting up a list can leave.
- The lookup of an item by binary search in a sorted list is modelled as membership.
- The pointer to authority that a check returns is modelled as the value it points to.
- The reading order of the key table's hash map is taken to be that of insertion; entries are only removed all at once.
- Sizes of memory are taken to be 64 bits wide, times and identifiers to be unbounded where they are only compared.
- KeyPair.GetBinaryDataAsPEM: the base 64 text is produced in a buffer of its own and copied, where the source writes it in place.
- OpenSshCodec.ParseEd25519Private: a block length from 2^31 up is refused as too long; the source takes it for a negative number and refuses the block one check later.
- `SetFromOpenSSHAuthorizedKeys`, the hex forms of keys and the legacy base 64 interfaces.
- Overwriting temporary buffers, except where the order of overwriting and comparing matters.
- Null texts, and a PEM type that is not given.
- Percentile.PercentileGenerator.GetPercentile: arithmetic is over `real`, so the rounding of `float` is not modelled.
- Reservoir.EveryPositionEqually: draws are taken to be uniform and inclusive; the remainder of a library random number, which the source uses, is so only up to rounding.
- Percentile.PercentileGenerator.AddSample: the counter of all samples does not overflow, and the members giving direct access to the table are not modelled.
- The library's sort is modelled as the ascending rearrangement of its input.
- SignalingClient.Client.Poll: what the socket returns is a parameter, and what other threads do while messages are handed on is not modelled.
- SignalingEndToEnd.EndToEnd: each line a client is asked to send ends with its only line feed, as the client asserts of the end; a name or peer with a line feed in it is not covered.
- SignalingServer.Server.HandleLine: giving a name, forwarding a line and leaving are one step each; interleavings inside them, and the loss of text written to a broken connection, are not modelled.
- SteamId.SteamID.Render: the four buffers used in turn are not modelled; the text is a value. A universe of 128 or more may print differently where enumerations are signed, but is refused either way.
- The lenient parser for Steam ids and the conversions between chat and clan ids.
- EndOfMatch.EndScheduledIff: speaks of runs in which the set of players stays the same; joining and leaving during a match are in the model and in the example beside it.
- Scenes, objects, positions, sound, timing beyond one delay, and the order of entries on the screen.
- Wave, boss and pool scripts, and the marshalling of packets.
- Histograms, packing of data centre names, address conversions and SipHash: tables and fixed formulas, with no state and no invariant.
