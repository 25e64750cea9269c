# Verification of the key, coin and preimage core of smartledger-bsv

A Dafny model of the parts of the library whose correctness rests on state, arithmetic or byte
layout, with proofs about every input or every run:

- BIP 32 extended keys: derivation on scalars and on points, the retry rule, path strings, the 78-byte
  serialisation and the memo behind `hdPublicKey` (`ExtendedKeys`, `Derivation`, `DerivationPaths`,
  `ExtendedKeyText`);
- the byte forms they stand on: curve points and SEC 1 compression (`Curves`, `PublicKeys`), the Base58
  conversion loops and Base58Check (`Numerals`, `Base58`, `Base58Check`), WIF and addresses
  (`PrivateKeys`, `Addresses`), the network registry (`Networks`,
  `ShippedNetworks`);
- the simulated chain and its miner (`Ledger`, `LedgerInvariants`, `Mining`,
  `Conservation`);
- the browser coin manager (`BrowserUtxos`, `BrowserIndex`);
- the BIP 143 preimage parser (`Preimages`);
- the development miner and its hash-linked blocks (`Blocks`).

`dafny verify dfyconfig.toml` checks the whole project.

## How to read it

Code that computes a value is a function; code that edits state is a class with the same fields, and
each of its methods is proved equal to a function of the old state (`AfterSpend`, `Parse`, `Step`,
...). The lemmas are about those functions, so they hold of the methods.

Things outside these files enter as values, so that each theorem holds for all of them:

- Digests are functions to numbers, of which the low 20, 32 or 64 bytes are used. Nothing is assumed
  of them; where one would want injectivity the result is "equal, or here is a collision".
- The addition law of the curve is a field of `Curve`; `Curve.Valid` asks that it is a monoid on the
  points of y^2 = x^3 + 7 and that the base point has order n. Multiplication reduces the scalar mod n
  and is repeated addition (lib/crypto/point.js:162-168); the square root behind a compressed point is
  the one root with the requested parity. `Witness` meets every requirement with a curve of 7 points
  and gives the inputs on which derivation does less than one would expect.
- `+step` on text that is not a decimal numeral, the script check, timestamps and the text of a
  transaction are parameters. The identity of a JavaScript object is a number in `Networks.Network`.

Products and remainders of unknown numbers in the curve and in key derivation are written by recursion
(`Residues.Product`, `Residues.Residue`), and `ProductIs` and `ResidueIs` equate them with the
operators.

Besides the laws over runs and inverses, each operation has lemmas that say what it computes without
naming it: what a child key is made of (`DerivedChildIs`, `PublicChildIs`), who owns the new coins
(`OutputsReachTheirOwners`, `OwnerBalance`), what an added coin holds (`AddedCoin`), what a block hash
fixes (`TipFixesTransactions`), and for what every text and buffer is refused.

Where the code does less than one would expect, the model keeps the code, and a lemma says exactly
when the expected property holds:

- Public derivation refuses the paths on which a private retry crosses into the hardened half, and
  agrees with private derivation on all others (`NeuterCommutes`, with
  `Witness.PlainRequestGivesHardenedChild`).
- A negative index with `hardened` set passes the bounds check and yields a child under a plain index,
  unless the retry crosses (`HardenedRequest`, with `Witness.HardenedRequestGivesPlainChild`).
- An xprv whose pad byte is not zero is read, but not written back as it was (`PrivateTextIsCanonical`).
- The length of a compressed public key is not checked (`PublicKeys.EncodeInvertsDecode`,
  `OtherFormsAreRead`).
- Registering a wallet can orphan or duplicate coins (`RegisterKeepsPartition`, with
  `EmptyRegistrationOrphans` and `SharedRegistrationDuplicates`), and adding or registering a spent coin
  again leaves value in the totals that can never be spent (`RunKeepsDisjoint`, `StuckForEver`).
- A script hash byte that marks public key hashes on some network is read as the latter
  (`AddressRoundTrip`, with `ShadowingHappens`).
- A repeated input is counted twice by the balance check (`BalanceEquation`, `AcceptedConserves`,
  `RunConservesExactly`, `RepeatedInputInflates`).
- `processTransaction` saves the state it loaded before the spends and adds, which undoes them
  (utilities/miner-simulator.js:433 and :485, against utilities/README.md:111); `FinalSaveUndoes` and
  `AcceptedAgain` say what follows, and the run theorems are about the step as described, `Kept`.
- A script that has no address makes `toAddress()` answer `false`, so such an output is stored under
  the owner "false" (lib/script/script.js:1065-1072); in the model that is an ordinary owner.
- The fee in the history is computed after the inputs are spent (`RecordedFee`).
- Loading a stored coin under a new address leaves its old index entry behind (`LoadKeepsSound`, with
  `MovedCoinCountsTwice`), and a replacing import that adds no coin leaves stale totals and a stale
  storage item (`ImportTotals`, `ImportThenLoad`).
- `getVarIntLength` looks at the value, not at the prefix that was read, so only minimal prefixes parse
  as they were written (`WriteInvertsParse`, with `LongPrefixIsMisread`).
- Removing a network deletes the lookup entries it took over instead of restoring them
  (`AddThenRemove`, `TakenEntryIsLost`).

## Model

| member | source | states |
|---|---|---|
| Derivation.NeuterCommutes | lib/hdpublickey.js:153-199 | for every private key of a consistently registered network and every list of plain indexes: public derivation from the neutered key equals the neutered private derivation in all buffers, and is refused exactly when at some step no plain index from the requested one on is usable |
| Derivation.NeuterCommutesOnStrings | lib/hdpublickey.js:186-199 | the same for every path text without a quote that both sides accept |
| Derivation.PathMatches | lib/hdprivatekey.js:280-291 | whatever networks are registered: along any path on which both sides succeed, point, chain code, depth, fingerprint and index agree |
| Derivation.StepCommutes | lib/hdprivatekey.js:228-278 | the one-step form, over all retries |
| Derivation.SamePoint | lib/hdpublickey.js:161-169 | at a plain index both sides hash the same bytes, and adding the parent point is multiplying by the reduced scalar sum |
| Derivation.PrivateRetry | lib/hdprivatekey.js:259-266 | derivation yields the child at the first index from the effective one on whose scalar is not zero mod n |
| Derivation.PrivateExhausted | lib/hdprivatekey.js:229-231 | it reports an invalid path exactly when no index up to 2^32 - 1 is usable |
| Derivation.DerivedChildIs | lib/hdprivatekey.js:253-275 | what the derived child is: the private version of its network, depth and fingerprint, the first usable index, the right half of the digest as chain code, and the left half plus the parent scalar mod n as scalar |
| Derivation.VersionKept | lib/hdprivatekey.js:268 | for every index, hardened or not: a key whose version is the private version of its network keeps it in the child |
| Derivation.PathVersionKept | lib/hdprivatekey.js:280-291 | and along every path |
| Derivation.NeverGoesBack | lib/hdprivatekey.js:233-236 | for every index, negative ones included: the child's index is at or after the effective one |
| Derivation.HardenedRequest | lib/hdprivatekey.js:228-266 | for every index: a hardened request that succeeds gives a hardened child exactly when the index is not negative, or its first scalar is zero and so are those of all later plain indexes |
| Derivation.CrossesWhenExhausted | lib/hdprivatekey.js:262-266 | a plain request gives a hardened child exactly when no plain index from there on is usable |
| Derivation.PublicRetry | lib/hdpublickey.js:167-172 | the first index whose point is not infinity |
| Derivation.PublicExhausted | lib/hdpublickey.js:154-156 | refused exactly when no index below 2^31 is usable |
| Derivation.PublicRefusals | lib/hdpublickey.js:153-159 | for every index: a hardened request and an index from 2^31 on are refused as hardened, a negative plain one as invalid; what is left gives a plain child at or after the index |
| Derivation.RefusedExactlyIfHardened | lib/hdpublickey.js:154-156 | where the private side gives a child, the public side refuses the same request exactly if the request or the child is hardened |
| Derivation.PublicChildIs | lib/hdpublickey.js:161-181 | what the public child is: the public version of its network, depth, fingerprint and index, the right half of the digest as chain code, and the multiple of the left half plus the parent point |
| Derivation.PublicVersionKept | lib/hdpublickey.js:175 | a key whose version is the public version of its network keeps it in the child |
| Derivation.PublicPathVersionKept | lib/hdpublickey.js:186-199 | and along every path |
| Derivation.PublicStringRefusals | lib/hdpublickey.js:186-191 | a path text is refused for a quote first, then for not being a list of plain indexes |
| Derivation.HardenedPathIsRefused | lib/hdpublickey.js:186-199 | the canonical text of a path with a hardened step is refused, that of a plain path derived |
| Derivation.PrivateStringRefusals | lib/hdprivatekey.js:280-283 | a path text that is not a list of indexes below 2^32 is refused as invalid |
| Derivation.HashInput | lib/hdprivatekey.js:238-252 | the 37 hashed bytes as one number: scalar or compressed point, then the index; the first byte tells which |
| Derivation.NonCompliantDiffers | lib/hdprivatekey.js:240-244 | the non-compliant form hashes other bytes exactly for hardened children of a key whose top byte is zero |
| Derivation.NonCompliantInput | lib/hdprivatekey.js:240-244 | it is the same number without padding |
| Derivation.PathLineage | lib/hdprivatekey.js:268-275 | along a path the depth counts the steps mod 256 and every key carries the fingerprint of its parent |
| Derivation.PathConcat | lib/hdprivatekey.js:286-288 | deriving along a concatenation is deriving along the parts in turn, errors included |
| Derivation.StringPath | lib/hdprivatekey.js:280-291 | the same for canonical path texts split at any step |
| Derivation.CanonicalPath | lib/hdprivatekey.js:280-291 | deriving along the canonical text of a list is deriving along the list |
| Derivation.LastAddedIsConsistent | lib/networks.js:119-132 | the network added last answers to both its version numbers, so its keys qualify for `NeuterCommutes` |
| Derivation.LaterAddKeepsConsistent | lib/networks.js:124-132 | they go on to, whatever is added later, unless it takes over one of the versions |
| ShippedNetworks.ShippedVersionsAreConsistent | lib/networks.js:194-263 | with the four networks the library registers, keys with a version of the live or the test network qualify |
| ShippedNetworks.ShippedVersionsAreTheirOwn | lib/networks.js:194-263 | with these networks xprv and tprv are the private versions of their networks, xpub and tpub the public ones |
| ShippedNetworks.PrivateVersionsAreShipped | lib/hdpublickey.js:244-247 | the versions read as private are exactly the private ones of the shipped networks, and none of their public ones |
| ShippedNetworks.ShippedAddresses | lib/address.js:158-213 | with the shipped networks the bytes 0x00, 0x05, 0x6f and 0xc4 are read as live and test network addresses of their type, every other byte is refused |
| ShippedNetworks.ShippedWif | lib/privatekey.js:125-153 | with the shipped networks 0x80 and 0xef mark keys of the live and the test network, every other byte is refused |
| Derivation.NeuterMatches | lib/hdpublickey.js:263-272 | a neutered key keeps every buffer but the version and carries the compressed point of the scalar |
| ExtendedKeys.PrivateChildIsPrivate | lib/hdprivatekey.js:365-377 | a child with a non-zero scalar passes every check of the constructor, or its network is unknown |
| ExtendedKeys.PublicChildIsPublic | lib/hdpublickey.js:274-287 | a child point other than infinity survives being compressed and decoded by the constructor |
| ExtendedKeys.DigestParts | lib/hdprivatekey.js:253-258 | left and right part together are the 64-byte digest, and a fingerprint is the first four bytes of the 20-byte one |
| DerivationPaths.PathRoundTrip | lib/hdprivatekey.js:102-131 | reading the canonical text of any list of indexes below 2^32 gives the list; it is a public path, and free of quotes, exactly when every index is plain |
| DerivationPaths.PathTextConcat | lib/hdprivatekey.js:114-128 | the text of a concatenation is the text of the first part followed by the steps of the second |
| DerivationPaths.Roots | lib/hdprivatekey.js:102-112 | the four roots are the empty path, and no other path is read unless it starts with one of them |
| DerivationPaths.OneBadStep | lib/hdprivatekey.js:114-130 | a path is malformed exactly when some step is |
| DerivationPaths.NumberStep | lib/hdprivatekey.js:115-127 | every decimal step is its number, however large, plus 2^31 with a quote behind it |
| DerivationPaths.BadSteps | lib/hdprivatekey.js:115-122 | an empty step, a bare quote and a sign are malformed, and other text is left to the cast |
| ExtendedKeyText.PrivateRoundTrip | lib/hdprivatekey.js:379-393 | every built private key is read back from its text, whatever byte stands in the pad position |
| ExtendedKeyText.PrivateTextIsCanonical | lib/hdprivatekey.js:461-477 | an accepted xprv is written back unchanged exactly when its pad byte is zero |
| ExtendedKeyText.PublicRoundTrip | lib/hdpublickey.js:289-303 | every built public key with a public version is read back from its text |
| ExtendedKeyText.PublicTextIsCanonical | lib/hdpublickey.js:328-345 | every accepted xpub is written back unchanged |
| ExtendedKeyText.PrivateTextReadAsPublic | lib/hdpublickey.js:244-247 | the text of a private key handed to the public side gives the neutered key |
| ExtendedKeyText.Layout | lib/hdprivatekey.js:642-655 | where each field stands in the 78 bytes |
| ExtendedKeyText.PrivateTextRefusals | lib/hdprivatekey.js:379-393 | a text is refused for its checksum, its length, then its scalar |
| ExtendedKeyText.PublicTextRefusals | lib/hdpublickey.js:289-303 | on the public side for its checksum, its length, then its point |
| ExtendedKeyText.DerivedTextIsRead | lib/hdprivatekey.js:379-393 | the text of a key derived along any path from one with its network's private version is read back by the private side, and neutered by the public side |
| ExtendedKeyText.DerivedPublicTextIsRead | lib/hdpublickey.js:289-303 | so is the text of a derived public key |
| ExtendedKeyText.TextsCommute | lib/hdpublickey.js:244-272 | neutering commutes with derivation on texts: the child's xprv handed to the public side is the child derived there from the parent's xprv |
| ExtendedKeyText.HDPrivateKey.GetHDPublicKey | lib/hdprivatekey.js:431-436 | the memoised getter answers the neutered key on every call |
| ExtendedKeyText.HDPrivateKey.GetXpubkey | lib/hdprivatekey.js:503-510 | the text of the neutered key |
| Curves.MulGAdds | lib/crypto/point.js:162-176 | multiplying the base point turns addition mod n into point addition |
| Curves.MulGInfinity | lib/crypto/point.js:204-213 | a multiple of the base point is infinity exactly when the scalar is zero mod n |
| Curves.RootIsDetermined | lib/crypto/point.js:45-50 | the x and the parity of y of a curve point give back that point |
| Residues.SameParityRootsAreEqual | lib/crypto/point.js:56-66 | two square roots of one parity below an odd prime are equal |
| PublicKeys.DecodeInvertsEncode | lib/publickey.js:322-346 | both byte forms of every public key decode to that key |
| PublicKeys.EncodeInvertsDecode | lib/publickey.js:140-175 | an accepted buffer is written back unchanged exactly when it starts with 4, or is compressed and 33 bytes long |
| PublicKeys.OtherFormsAreRead | lib/publickey.js:149-169 | every key is also read from its compressed form with a zero byte more, and from its hybrid form |
| PublicKeys.Readable | lib/publickey.js:140-175 | exactly what is read, strict or not, and how everything else is refused |
| PublicKeys.EncodeInjective | lib/publickey.js:322-346 | different keys have different bytes |
| Numerals.RebaseBack | lib/encoding/base58.js:14-32 | changing the base of a numeral and back gives the numeral, leading zeros included |
| Base58.EncodeBuffer | lib/encoding/base58.js:34-54 | the encoding loops compute the numeral of the buffer in base 58 |
| Base58.DecodeText | lib/encoding/base58.js:56-76 | the decoding loops compute the bytes of the text, or refuse a character outside the alphabet |
| Base58.Accumulate | lib/encoding/base58.js:38-48 | the carry loops multiply by the factor and add the carry |
| Base58.DecodeInvertsEncode | lib/encoding/base58.js:34-76 | every buffer is read back from its text |
| Base58.EncodeInvertsDecode | lib/encoding/base58.js:34-76 | every readable text is the text of what it is read as |
| Base58.AlphabetIs | lib/encoding/base58.js:11 | the alphabet is the digits and letters without 0, I, O and l in ascending order |
| Base58Check.DecodeInvertsEncode | lib/encoding/base58check.js:45-74 | every payload is read back, checksum checked |
| Base58Check.EncodeInvertsDecode | lib/encoding/base58check.js:45-74 | every accepted text is the text of its payload |
| Base58Check.EncodedBytes | lib/encoding/base58check.js:63-74 | the text is that of the payload followed by the first four bytes of its digest |
| Base58Check.Refusals | lib/encoding/base58check.js:45-62 | a text is refused as foreign, too short or wrongly summed, in this order |
| PrivateKeys.WifRoundTrip | lib/privatekey.js:346-361 | reading a WIF gives scalar and flag on the first registered network with the version byte; with a network argument, exactly when it names that network |
| PrivateKeys.WifIsCanonical | lib/privatekey.js:125-153 | an accepted text is the WIF of the key it is read as, unless its payload is a bare 32-byte scalar |
| PrivateKeys.WifBytes | lib/privatekey.js:346-361 | version byte of the network, 32 bytes of scalar, and a 1 for compressed keys |
| PrivateKeys.AcceptedIsInRange | lib/privatekey.js:36-42 | an accepted scalar is above 0 and below n, and its buffer has one of three sizes |
| PrivateKeys.BareScalar | lib/privatekey.js:128-130 | a bare scalar is a compressed key of the network asked for, or of the standard one |
| PrivateKeys.RefusedInOrder | lib/privatekey.js:132-148 | other buffers are refused for the byte first, then the network asked for, then the size |
| PrivateKeys.WifTextRefusals | lib/privatekey.js:185-187 | a text that is no Base58Check text is reported with its reason, and no other is |
| Addresses.AddressRoundTrip | lib/address.js:158-213 | reading address bytes gives hash, type and first network with the byte, exactly when no registered network marks public key hashes with that script byte |
| Addresses.AddressRoundTripWith | lib/address.js:183-213 | with the optional arguments: read back exactly for the network and type of the address, and otherwise refused, for an unknown network first, then another network, then another type |
| Addresses.AddressRefusals | lib/address.js:188-203 | refused for every other size, and for bytes that no network has |
| Addresses.ShadowedIsMisread | lib/address.js:158-173 | a script hash address that is shadowed in this way reads back as a public key hash address |
| Addresses.ShadowingHappens | lib/address.js:161-170 | two networks on which that happens |
| Addresses.AddressIsCanonical | lib/address.js:485-489 | every accepted address buffer is written back unchanged |
| Networks.NetworkRegistry.AddNetwork | lib/networks.js:80-122 | the new network, registered last and indexed |
| Networks.CopiedIsKept | lib/networks.js:83-91 | a new network takes over the seven fixed fields as they are |
| Networks.OptionalField | lib/networks.js:95-117 | and prefix, port and seeds when they are truthy |
| Networks.ObjectField | lib/networks.js:95-106 | the magic number and the prefix array become objects |
| Networks.NoOtherField | lib/networks.js:80-117 | there are no other fields |
| Networks.NetworkRegistry.IndexNetworkBy | lib/networks.js:124-132 | every primitive field named becomes a lookup entry |
| Networks.NetworkRegistry.RemoveNetwork | lib/networks.js:149-156 | the network is gone from list and map, although splicing skips an element |
| Networks.NetworkRegistry.UnindexNetworkBy | lib/networks.js:134-141 | exactly the entries that pointed to the network are deleted |
| Networks.NetworkRegistry.GetKeyed | lib/networks.js:32-45 | the first network in registration order with the value under one of the keys |
| Networks.RunValid | lib/networks.js:80-156 | over any run of add and remove the networks stay distinct and every lookup entry points to a registered one |
| Networks.AddedIsFound | lib/networks.js:28-47 | a network just added answers to its indexed values; other values are looked up as before |
| Networks.RemovedIsNotFound | lib/networks.js:149-156 | no lookup returns a removed network, and other lookups by value are unchanged |
| Networks.SpliceOut | lib/networks.js:150-154 | the others keep their order |
| Networks.FirstMatchIsEarliest | lib/networks.js:36-44 | the keyed lookup finds the earliest match, and nothing only when there is none |
| Networks.NetworksAsArguments | lib/networks.js:28-47 | a registered network answers to itself, any other to its name, or with keys not at all |
| Networks.NumbersAsText | lib/networks.js:32-46 | without keys a number and its decimal text are one lookup, with keys the number itself has to be there |
| Networks.AddThenRemove | lib/networks.js:149-156 | removing what was just added restores the list always, the lookup map exactly when no entry was taken over |
| Networks.TakenEntryIsLost | lib/networks.js:134-141 | an entry that was taken over answers to nothing afterwards |
| Ledger.KeyInjective | utilities/blockchain-state.js:120 | the text key of an outpoint determines it |
| Ledger.BlockchainState.RegisterWallet | utilities/blockchain-state.js:101-136 | the stored state after a registration |
| Ledger.BlockchainState.SpendUTXO | utilities/blockchain-state.js:167-198 | the stored state after a spend, and the two errors, which save nothing |
| Ledger.BlockchainState.AddUTXO | utilities/blockchain-state.js:203-242 | the stored state after an add; nothing when the outpoint is in the set |
| Ledger.UpdateBlockchainMetadata | utilities/blockchain-state.js:247-259 | the totals are the sums over the global set and over each wallet list |
| LedgerInvariants.RunKeepsPartition | utilities/blockchain-state.js:101-259 | over any run of add, spend and fitting registrations the wallet lists are a duplicate-free partition of the global set by owner, the recorded totals are right, and the wallet totals add up to the global one |
| LedgerInvariants.RegisterKeepsPartition | utilities/blockchain-state.js:110-126 | a registration keeps the partition exactly when its outpoints are distinct, owned by nobody else, and leave out no coin the address already has |
| LedgerInvariants.LastPutWins | utilities/blockchain-state.js:118-125 | of coins with one outpoint the last one is written |
| LedgerInvariants.EmptyRegistrationOrphans | utilities/blockchain-state.js:106-126 | registering an owner again without its coins leaves them in the global set and in no list |
| LedgerInvariants.SharedRegistrationDuplicates | utilities/blockchain-state.js:106-126 | registering a coin for a second address leaves it in both lists |
| LedgerInvariants.NewAddressFits | utilities/blockchain-state.js:106-126 | for a new address that means distinct outpoints outside the global set |
| LedgerInvariants.TotalsAgree | utilities/blockchain-state.js:247-259 | in a partition the wallet totals sum to the global total |
| LedgerInvariants.SpendKeepsPartition | utilities/blockchain-state.js:179-193 | spending keeps the partition |
| LedgerInvariants.AddKeepsPartition | utilities/blockchain-state.js:207-236 | adding keeps the partition |
| LedgerInvariants.AddNeverRepeats | utilities/blockchain-state.js:228-236 | adding lists no outpoint twice in a wallet, partition or not |
| LedgerInvariants.SpentForEver | utilities/blockchain-state.js:141-198 | in every run an outpoint is spent at most once, its record never changes, and it is never available again |
| LedgerInvariants.SpendOutcomes | utilities/blockchain-state.js:167-177 | a spend succeeds exactly for available coins, and reports a missing coin before a spent one |
| LedgerInvariants.SecondSpend | utilities/blockchain-state.js:167-193 | a coin spent once is looked up as spent, does not exist at the second try, and is already spent once it has been added again |
| LedgerInvariants.StepKeepsRecords | utilities/blockchain-state.js:106-130 | only registering counts the wallets, and it counts all |
| LedgerInvariants.RunKeepsRecords | utilities/blockchain-state.js:101-259 | no run of coin operations changes history or height, and every wallet keeps its own name |
| LedgerInvariants.RunKeepsDisjoint | utilities/blockchain-state.js:101-242 | over any run no coin is in the spent and the global set at once exactly when nothing already spent is added or registered again |
| LedgerInvariants.StuckForEver | utilities/blockchain-state.js:101-242 | a coin in both sets stays in both in every run, so its value stays in the totals |
| Mining.MinerSimulator.ValidateTransactionInputs | utilities/miner-simulator.js:49-80 | one error per input that is not available, and no other |
| Mining.MinerSimulator.ValidateTransactionOutputs | utilities/miner-simulator.js:152-173 | one error per amount that is not positive and per missing script |
| Mining.MinerSimulator.Balance | utilities/miner-simulator.js:183-198 | the input value, repeated inputs counted every time, and the output value |
| Mining.MinerSimulator.ValidateTransaction | utilities/miner-simulator.js:379-425 | all errors in order, and the high-fee warning |
| Mining.MinerSimulator.SpendInputsAndAddOutputs | utilities/miner-simulator.js:435-471 | the coins after every spend and add |
| Mining.MinerSimulator.ProcessTransaction | utilities/miner-simulator.js:430-489 | what is stored at the end: the state from before, with history and height |
| Mining.MinerSimulator.AcceptTransaction | utilities/miner-simulator.js:543-583 | processed exactly when no check reports an error |
| Conservation.Accepted | utilities/miner-simulator.js:379-425 | what acceptance means: every input available, every output positive with a script, fee not negative |
| Conservation.ReportIs | utilities/miner-simulator.js:379-400 | the five lists of errors in order, the balance error with both sums, and a warning from a fee of 10001 on |
| Conservation.InputErrorsAre | utilities/miner-simulator.js:56-77 | one error per unavailable input, naming its place, in order |
| Conservation.OutputErrorsAre | utilities/miner-simulator.js:157-166 | one error per amount that is not positive and per missing script, naming the place |
| Conservation.OutputErrorsInOrder | utilities/miner-simulator.js:157-166 | with the places going up, and the amount before the script |
| Conservation.BalanceEquation | utilities/miner-simulator.js:435-471 | for every transaction: the coin set loses the fee, less the double counting of repeated inputs, plus the outputs that never became coins |
| Conservation.AcceptedConserves | utilities/miner-simulator.js:178-213 | among accepted transactions with clean outputs exactly those with distinct inputs conserve value |
| Conservation.RepeatedInputInflates | utilities/miner-simulator.js:185-193 | naming one coin twice passes the checks at fee zero and raises the total by the value of that coin |
| Conservation.RunConserves | utilities/miner-simulator.js:430-471 | over any run of the described step the coin set loses exactly the fees, no fee is negative, and no outpoint is an input twice |
| Conservation.RunConservesExactly | utilities/miner-simulator.js:430-471 | from positive coins and with clean outputs, a run of the described step never loses more than the fees, and exactly the fees if and only if no accepted transaction names an input twice |
| Conservation.KeptArePositive | utilities/miner-simulator.js:157-166 | acceptance keeps every coin positive |
| Conservation.RunKeepsWallets | utilities/miner-simulator.js:435-471 | over any such run the wallet lists stay a partition and sum to the global total |
| Conservation.OutputsReachTheirOwners | utilities/miner-simulator.js:451-471 | after the described step every clean output is a coin of its amount and owner, and stands in that owner's list |
| Conservation.InputsAreRecorded | utilities/miner-simulator.js:437-447 | every input is recorded as spent in this transaction, as the coin it was |
| Conservation.OwnerBalance | utilities/miner-simulator.js:435-471 | conservation owner by owner: a list changes by the outputs paid to the address less its own coins that are spent |
| Conservation.RunOwnerBalance | utilities/miner-simulator.js:430-471 | and over any run |
| Conservation.FinalSaveUndoes | utilities/miner-simulator.js:433-485 | the final save leaves the coins of the described step exactly when the transaction has no inputs |
| Conservation.AcceptedAgain | utilities/miner-simulator.js:485 | as written, an accepted transaction is accepted again |
| Conservation.RunAsWritten | utilities/miner-simulator.js:430-489 | a whole run as written moves no coin: transactions are judged by the coins at the start, and the accepted ones only add their entries to the history and one each to the height |
| Conservation.RecordedFee | utilities/miner-simulator.js:474-510 | the recorded fee is minus the output value, and is the fee charged exactly when the inputs are worth nothing |
| BrowserUtxos.BrowserUTXOManager.constructor | lib/browser-utxo-manager-es5.js:21-48 | a new manager holds what the storage item gives |
| BrowserUtxos.BrowserUTXOManager.LoadFromStorage | lib/browser-utxo-manager-es5.js:59-89 | the coins put and indexed one after the other |
| BrowserUtxos.BrowserUTXOManager.SaveToStorage | lib/browser-utxo-manager-es5.js:91-110 | the coins in insertion order, with the totals |
| BrowserUtxos.BrowserUTXOManager.AddUTXO | lib/browser-utxo-manager-es5.js:112-151 | the new contents, the answer, the error, and what is saved |
| BrowserUtxos.BrowserUTXOManager.GetUTXOsForAddress | lib/browser-utxo-manager-es5.js:153-167 | the indexed coins that are available, in index order |
| BrowserUtxos.BrowserUTXOManager.GetBalance | lib/browser-utxo-manager-es5.js:169-174 | their sum |
| BrowserUtxos.BrowserUTXOManager.SpendUTXOs | lib/browser-utxo-manager-es5.js:176-207 | the new contents, the list returned, and what is saved |
| BrowserUtxos.BrowserUTXOManager.UpdateMetadata | lib/browser-utxo-manager-es5.js:248-278 | the number and value of all coins, spent ones included |
| BrowserUtxos.BrowserUTXOManager.ImportData | lib/browser-utxo-manager-es5.js:289-314 | the contents, the answer and what is saved, also when an input throws halfway |
| BrowserIndex.RunBalances | lib/browser-utxo-manager-es5.js:112-314 | after any run of add, spend, import and address-keeping loads, the balance of every address but the empty one is the sum a full scan finds |
| BrowserIndex.BalanceIsScan | lib/browser-utxo-manager-es5.js:153-174 | an index that agrees gives the scanned balance |
| BrowserIndex.ListIsScan | lib/browser-utxo-manager-es5.js:153-167 | the list for an address holds exactly its available coins, each once |
| BrowserIndex.TotalIsSum | lib/browser-utxo-manager-es5.js:248-278 | the total counts every coin of the map once |
| BrowserIndex.AddedCoin | lib/browser-utxo-manager-es5.js:112-151 | a new coin is there as its input describes it, at the end of the order; the total rises by its amount and no other coin changes |
| BrowserIndex.AddedCoinBalance | lib/browser-utxo-manager-es5.js:125-143 | the balance of its address rises by its amount, and no other balance changes |
| BrowserIndex.KnownCoin | lib/browser-utxo-manager-es5.js:119-122 | a coin that is there already is left as it is |
| BrowserIndex.ImportKeepsSound | lib/browser-utxo-manager-es5.js:289-314 | an import keeps the index right even when it fails halfway |
| BrowserIndex.ImportedCoin | lib/browser-utxo-manager-es5.js:301-306 | every coin an import brings is there as the first input that names it describes it |
| BrowserIndex.ImportBringsOnly | lib/browser-utxo-manager-es5.js:301-306 | and no other coin is new |
| BrowserIndex.ImportKeeps | lib/browser-utxo-manager-es5.js:112-121 | coins there before are left as they are |
| BrowserIndex.ImportBalance | lib/browser-utxo-manager-es5.js:301-306 | an import raises each balance by the amounts of the coins it brings there |
| BrowserIndex.ImportAnswer | lib/browser-utxo-manager-es5.js:289-314 | an import answers true exactly when it could be read and every input was usable |
| BrowserIndex.ImportStarts | lib/browser-utxo-manager-es5.js:295-299 | a replacing import starts from nothing but the recorded totals, a merging one from what is there |
| BrowserIndex.LoadKeepsSound | lib/browser-utxo-manager-es5.js:70-79 | a load keeps the index right exactly when the last record of every coin names the address of its earlier records and of the coin already there, as far as these are not empty |
| BrowserIndex.LoadsNothing | lib/browser-utxo-manager-es5.js:59-89 | a missing or unreadable item, or one without coins, changes nothing |
| BrowserIndex.LoadIndexes | lib/browser-utxo-manager-es5.js:70-79 | a load indexes every record under its own address, the empty one included, and takes no entry away |
| BrowserIndex.MovedCoinCountsTwice | lib/browser-utxo-manager-es5.js:70-79 | loading two records of one coin under two addresses counts it in the balance of both |
| BrowserIndex.BatchSpend | lib/browser-utxo-manager-es5.js:176-207 | with repeated or unknown inputs: no coin twice in the list, exactly the requested available coins, the available total falls by its sum, other coins untouched |
| BrowserIndex.SpentInName | lib/browser-utxo-manager-es5.js:177-199 | every coin spent and every new record names the transaction, or the default name |
| BrowserIndex.SpentInOrder | lib/browser-utxo-manager-es5.js:180-199 | the coins are returned in the order in which they are first named |
| BrowserIndex.SaveThenLoad | lib/browser-utxo-manager-es5.js:59-110 | saving and loading into a fresh manager restores coins, statuses, order, totals and balances; the spent map only when it was empty |
| BrowserIndex.ImportTotals | lib/browser-utxo-manager-es5.js:295-306 | exactly when the recorded totals are right after an import |
| BrowserIndex.AddsCoinWhen | lib/browser-utxo-manager-es5.js:301-306 | an import adds a coin, and so saves, exactly when it reaches an input whose coin is not there yet |
| BrowserIndex.ImportThenLoad | lib/browser-utxo-manager-es5.js:289-314 | after an import under automatic saving a fresh manager finds the same coins exactly when the import saved, merged, was not readable, or there were none before |
| Preimages.CovenantPreimage.ParseFields | lib/covenant-interface.js:640-697 | the cursor computes the fields, their values and `isValid`, or throws |
| Preimages.CovenantPreimage.ParseHead | lib/covenant-interface.js:640-664 | the 104 bytes before the script length, or the RangeError |
| Preimages.CovenantPreimage.ParseFoot | lib/covenant-interface.js:672-694 | the 52 bytes after the script, or the RangeError |
| Preimages.Outcomes | lib/covenant-interface.js:640-713 | when a buffer parses, when it is valid, and when which error is thrown |
| Preimages.ParseInvertsWrite | lib/covenant-interface.js:640-697 | a written preimage is parsed back in every field and valid for scripts below 2^32 bytes, and a TypeError from there on |
| Preimages.NumbersAreRead | lib/covenant-interface.js:645-694 | the six numbers of a written preimage are read back |
| Preimages.WriteInvertsParse | lib/covenant-interface.js:699-713 | rewriting a valid preimage gives the buffer exactly when its length prefix is minimal |
| Preimages.LongPrefixIsMisread | lib/covenant-interface.js:666-669 | the length 5 written in three bytes: the buffer is valid two bytes early, and the script starts with the bytes of the length |
| Preimages.FieldsFromTheEnd | lib/covenant-interface.js:643-696 | a valid preimage has at least 157 bytes, its earlier fields at fixed places from the start and its later ones at fixed distances from the end |
| Blocks.SmartMiner.AcceptTransaction | lib/smartminer.js:36-56 | appended to the mempool exactly when it verifies or scripts are not checked |
| Blocks.SmartMiner.MineBlock | lib/smartminer.js:80-107 | the next block over the first transactions of the mempool |
| Blocks.SmartMiner.ResetMiner | lib/smartminer.js:143-151 | the state of a new miner |
| Blocks.MinedBlockIs | lib/smartminer.js:80-105 | the next block takes as many of the first transactions as asked for, leaves the others, and links to the tip, or to 64 zeros |
| Blocks.GenesisIs | lib/smartminer.js:143-151 | a new or reset miner has an empty block of height 0 without a hash |
| Blocks.Links | lib/smartminer.js:88 | every block of a chain holds the hash of the one before it |
| Blocks.RecordTells | lib/smartminer.js:93-98 | blocks with equal records agree in height, time, link and the name of every transaction |
| Blocks.NothingLost | lib/smartminer.js:36-151 | over any run: blocks since the last reset, then the mempool, hold exactly the accepted transactions in order, and heights count from 1 |
| Blocks.TipFixesHistory | lib/smartminer.js:80-107 | chains with one tip hash have the same records back to the first block, or two different records with one hash |
| Blocks.EqualTips | lib/smartminer.js:80-107 | the same for any two runs of the miner |
| Blocks.TipFixesTransactions | lib/smartminer.js:80-107 | for transactions with ids: chains with one tip hash have the same lists of ids block by block, or a collision |
| Blocks.EqualTipsEqualTransactions | lib/smartminer.js:80-107 | the same for any two runs of the miner |
| Witness.SmallCurveIsValid | lib/crypto/point.js:113-176 | the requirements on the curve can be met |
| Witness.SmallKeyQualifies | lib/hdprivatekey.js:454-512 | so can those of the derivation theorems, together |
| Witness.HardenedRequestGivesPlainChild | lib/hdprivatekey.js:84-88 | a key for which the hardened request at -1 gives the plain child 2^31 - 1 |
| Witness.PlainRequestGivesHardenedChild | lib/hdprivatekey.js:262-266 | a key for which the plain request for 2^31 - 1 gives the hardened child 2^31, and the public side refuses |

## Left out

- HMAC-SHA512, hash160, double SHA-256, and the arithmetic of @noble/curves: parameters, as described above.
- The explicit checksum argument of `_buildFromBuffers` (lib/hdprivatekey.js:466-472): derivation and deserialisation never pass one, since `Base58Check.decode` has already removed it.
- PrivateKeys.FromWIF: starts at `_transformWIF`; the constructor first tries the text as the name of a network, when no network is given, and as hexadecimal (lib/privatekey.js:85-91).
- `fromSeed`, random generation, JSON and object forms of keys, and the raw hexadecimal forms of `PrivateKey`.
- DerivationPaths.Indexes: fractional and infinite results of `+step` are not represented; numerals above 2^53 keep their exact value, where JavaScript rounds, and are out of bounds either way.
- Networks.FieldsOf: the getters that make testnet fields depend on `enableRegtest` and `enableStn`, and cashaddr prefix arrays.
- Networks.Registry.Get: arguments that are neither networks, numbers nor strings.
- Addresses from scripts, multisig, hashes without a version byte, and the length check of `_transformString`.
- The checks of the raw hexadecimal form and of signatures in the miner: only the lists of errors they report.
- The log output, timestamps of wallets and coins, file and storage failures, and the browser mode of the chain state, which stores nothing.
- BrowserUtxos.BrowserUTXOManager.LoadFromStorage: stored entries that are not objects; coins shared by reference with a caller after `spendUTXOs` are values here.
- `createMockUTXOs`, `getStats` beyond the totals, `maxUTXOs`, `metadata.totalWallets`.
- The script-building half of lib/covenant-interface.js, lib/smartutxo.js and lib/browser-utxo-manager.js.
- The script interpreter, sighash, covenant, credential, Shamir, Merkle and status-list modules.
