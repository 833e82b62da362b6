# cryptobridge client: bridge registry and proposal gate

This project models two parts of the cryptobridge relay client in Dafny.

**The bridge registry (`src/config.js`).** `config.json` maps a network index to a
bridge group. A group is the pair of chain endpoints (host) and bridge contract
addresses, plus the `host:port` list of peers that gossip signatures for that pair.
The file is modelled as `Option<Store>`: `None` means the file does not exist. A
`Store` keeps the property names in JavaScript's enumeration order next to the map
of entries.
- Module `Registry` defines each operation as a pure function from the file before
  to the result and the file after: `getNetIndex`, `getFirstIndex`, `addGroup`,
  `addPeers`, `getHosts`, `getAllHosts` and the peer parsing of `loadPeers`.
- Module `ConfigFile` runs the operations that loop or mutate step by step on a
  `Config` object:
  - `AddGroup` (the duplicate-scan loop and its flag) is proved equal to
    `Registry.AddGroup`;
  - `AddPeers` (the push loop and its counter) is proved equal to `Registry.AddPeers`;
  - `GetAllHosts` (the push loop) is proved to return `Registry.HostPairs` of the
    names in file order;
  - `GetPeers` and the recursive `LoadPeers` state their result directly: one peer,
    `Registry.PeerOf` of the string, under each stored `host:port` string.
  getNetIndex, getFirstIndex and getHosts are pure expressions and live only in
  `Registry`.

**The bridge-contract calls (`src/lib/util/bridges.js`).**
- Module `BridgeCalls` holds the string and number work:
  - call data: a 4-byte selector, then arguments left-padded to 64 hex characters;
  - reply decoding with `parseInt` and `slice`;
  - the signature blob `sigData`;
  - the quorum comparison, the proposal transaction and the receipt-log test.
- Module `Bridges` models the chain node as an oracle. Each reply is a function of
  the requests sent before it. A `Client` object keeps the log of the requests it has
  sent. The pure functions `QuorumRun` and `ProposeRun` say which requests a flow
  sends and what it answers. The methods `CheckSigsContract` and `Propose` are
  proved against them. On top of that, the lemmas show that a proposal is never
  broadcast, and no nonce is fetched, unless the on-chain quorum check passed.

**JavaScript primitives (`JsText`).** The JavaScript semantics the source relies on
are written out in module `JsText`:
- `<` on strings;
- parseInt with and without radix 16, including the `0x` prefix, leading
  whitespace, a sign, a longest digit run, and NaN as `None`;
- `Number.prototype.toString(16)`, `left-pad`, `String.prototype.slice`,
  `String.prototype.split` and `Buffer.prototype.toString('hex')`.

config.js:37-47 files the second address as B only when it parses strictly greater,
so side A holds the address that is not numerically greater (`Registry.Orient`,
`Registry.OrientOrdersByValue`).

## Model

| member | source | states |
|---|---|---|
| `Registry.NetIndexSymmetric` | cryptobridge-client-master/src/config.js:9-14 | The network index does not depend on the order of the two addresses; it is the string-smaller address, `_`, then the other (and `a_a` when both are equal). |
| `Registry.NetIndexMatchesGroupKey` | cryptobridge-client-master/src/config.js:9-14 | For `0x` addresses of equal length in lower-case hex, getNetIndex names a pair exactly as addGroup files it. |
| `Registry.NetIndexDiffersFromGroupKey` | cryptobridge-client-master/src/config.js:37-51 | For `0x9` and `0x10` the two namings differ: getNetIndex gives `0x10_0x9` (string order), addGroup files `0x9_0x10` (numeric order). |
| `Registry.Store.Put` | cryptobridge-client-master/src/config.js:53 | Assigning `data[k]` sets that entry only and keeps the file well-formed. A new name goes last in enumeration order; an existing name keeps its place. |
| `Registry.AddGroup` | cryptobridge-client-master/src/config.js:31-75 | addGroup as a function of the file before; the file it writes is well-formed. |
| `Registry.OrientOrdersByValue` | cryptobridge-client-master/src/config.js:37-47 | Each host stays paired with its own address. Whenever both addresses parse, the address filed as A is never numerically greater than the one filed as B. A new entry has no peers. |
| `Registry.OrientSymmetric` | cryptobridge-client-master/src/config.js:37-47 | Registering the two sides in either order files the same entry when the addresses parse to different numbers. |
| `Registry.SwappedRegistrationExample` | cryptobridge-client-master/src/config.js:37-51 | `[chainA, 0x02, chainB, 0x01]` is filed under `0x01_0x02`, with chainB's host as side A. |
| `Registry.AddGroupRejects` | cryptobridge-client-master/src/config.js:53-58 | addGroup fails with 'Bridge group already saved.' exactly when an entry under another name holds the same four fields, and then the file is left as it was. |
| `Registry.AddGroupOnlyTouchesItsKey` | cryptobridge-client-master/src/config.js:51-63 | A successful addGroup writes exactly the four fields under `${addrA}_${addrB}`, dropping any peers there. Every other name and entry is unchanged, and the existing names keep their order. |
| `Registry.ReRegistrationReplaces` | cryptobridge-client-master/src/config.js:53-63 | On a file only addGroup has written, adding any pair succeeds, the file stays well-keyed, and a re-registered pair loses its peers. |
| `Registry.EndpointStrings` | cryptobridge-client-master/src/config.js:89 | Each peer becomes the string `host:port`, one per peer and in order. |
| `Registry.AddPeers` | cryptobridge-client-master/src/config.js:79-105 | addPeers as a function of the file before; the file it writes is well-formed, and a missing file gives 'Config file does not exist. Start by adding a bridge with --add'. |
| `Registry.AppendNewExtends` | cryptobridge-client-master/src/config.js:88-98 | The old peer list is kept as a prefix. Each appended string comes from the input, was not in the old list, and appears once. Every input string ends up in the list. |
| `Registry.AppendNewPresent` | cryptobridge-client-master/src/config.js:94-97 | Strings that are all already in the list add nothing. |
| `Registry.AppendNewNoDuplicates` | cryptobridge-client-master/src/config.js:94-97 | A peer list without duplicates stays without duplicates. |
| `Registry.AppendNewFresh` | cryptobridge-client-master/src/config.js:88-98 | Distinct new peers are appended exactly in input order. |
| `Registry.AddPeersIdempotent` | cryptobridge-client-master/src/config.js:87-98 | Adding the same peers a second time returns 0 and leaves the file unchanged. A list without duplicates keeps none. |
| `Registry.FirstIndex` | cryptobridge-client-master/src/config.js:16-24 | getFirstIndex fails exactly when the file is missing. Otherwise it gives the first name, which names an entry, or nothing when the file is empty. |
| `Registry.FirstIndexAfterAddGroup` | cryptobridge-client-master/src/config.js:16-24 | After the first group is registered into a missing or empty file, getFirstIndex names that group. |
| `Registry.GetHosts` | cryptobridge-client-master/src/config.js:123-130 | getHosts gives `[hostA, hostB]` of the index. A missing file gives 'No peers saved.'; an unknown index is an error. |
| `Registry.HostsAfterAddGroup` | cryptobridge-client-master/src/config.js:123-130 | After addGroup, getHosts on the group's name gives side A's host then side B's, and these are the two registered hosts. |
| `Registry.HostPairsLayout` | cryptobridge-client-master/src/config.js:138-143 | getAllHosts lists exactly two pairs per group in name order: `[addrA, hostA]` then `[addrB, hostB]`. |
| `Registry.AllHostsAfterAddGroup` | cryptobridge-client-master/src/config.js:132-146 | After addGroup, both sides of the new group appear in getAllHosts. |
| `Registry.PeerOfEndpoint` | cryptobridge-client-master/src/config.js:159-161 | A `host:port` string that addPeers stored loads back as the same host and port after the split on `:`. |
| `ConfigFile.Config.constructor` | cryptobridge-client-master/src/config.js:148-154 | The object starts from the file as read, or from no file, with no directories created. |
| `ConfigFile.Config.AddGroup` | cryptobridge-client-master/src/config.js:31-75 | The orientation, the duplicate-scan loop over the names and the write give exactly `Registry.AddGroup`. On success both address directories are recorded as created. |
| `ConfigFile.Config.AddPeers` | cryptobridge-client-master/src/config.js:79-105 | The push loop with its counter gives exactly `Registry.AddPeers`. The returned count is the growth of the peer list. |
| `ConfigFile.Config.GetAllHosts` | cryptobridge-client-master/src/config.js:132-146 | The push loop returns the pairs of every group in name order. A missing file gives 'No hosts saved.'. |
| `ConfigFile.Config.GetPeers` | cryptobridge-client-master/src/config.js:108-120 | getPeers has one error for each of: a missing file, an unknown group, no peer list. Otherwise the loaded map's keys are exactly the stored strings, each mapped to its parsed peer, one per stored string when the list has no duplicates. |
| `ConfigFile.LoadPeers` | cryptobridge-client-master/src/config.js:156-168 | Taking hosts off the end of the list adds one peer per host string to the peers already collected. Other peers are untouched. |
| `JsText.StrLessTrichotomy` | cryptobridge-client-master/src/config.js:12 | String `<` is a strict total order: irreflexive, asymmetric, total. |
| `JsText.StrLessCommonPrefix` | cryptobridge-client-master/src/config.js:12 | A common prefix such as `0x` does not change the string order. |
| `JsText.HexOrderMatchesValue` | cryptobridge-client-master/src/config.js:12 | For lower-case hex strings of equal length, string order is numeric order. |
| `JsText.HexLiteralValue` | cryptobridge-client-master/src/config.js:37 | parseInt of `0x` and hex digits of either case, with or without radix 16, gives the digits' value. |
| `JsText.MixedCaseHexExample` | cryptobridge-client-master/src/config.js:37 | `0xAbC` reads as 2748 with or without radix 16: mixed case is accepted. |
| `JsText.HexWordRoundTrip` | cryptobridge-client-master/src/lib/util/bridges.js:12 | A number written by toString(16) and zero-padded to any width, behind `0x`, parses back to itself. |
| `JsText.ToHex` | cryptobridge-client-master/src/lib/util/bridges.js:39 | toString(16) of a natural number is a non-empty string of lower-case hex digits. |
| `JsText.ToHexValue` | cryptobridge-client-master/src/lib/util/bridges.js:39 | The digits toString(16) writes have the number's value. |
| `JsText.LeftPad` | cryptobridge-client-master/src/lib/util/bridges.js:9 | left-pad returns the string behind as many pad characters as bring it to the length, and returns it unchanged when it is already long enough. |
| `JsText.PadAbsorbsZeros` | cryptobridge-client-master/src/lib/util/bridges.js:88 | Leading zeros that still fit in the width do not change a zero-padded word. |
| `JsText.Slice` | cryptobridge-client-master/src/lib/util/bridges.js:21 | `slice(k)` is the suffix from k, or empty past the end. |
| `JsText.BytesToHex` | cryptobridge-client-master/src/lib/util/bridges.js:88 | `toString('hex')` writes two lower-case hex digits per byte, without `0x`. |
| `JsText.SplitJoined` | cryptobridge-client-master/src/config.js:160 | Splitting `a:b` on `:` gives back `[a, b]` when neither part contains `:`. |
| `BridgeCalls.LastBlockCallDataLayout` | cryptobridge-client-master/src/lib/util/bridges.js:9 | getLastBlock's call data is 74 characters: the selector `0x4929dfa1`, zeros, then the bridged address without its first two characters. |
| `BridgeCalls.LastBlockArgumentValue` | cryptobridge-client-master/src/lib/util/bridges.js:9 | For a `0x` address of hex digits of either case (checksummed addresses included), the argument word holds the address's value. |
| `BridgeCalls.LastBlockReplyRoundTrip` | cryptobridge-client-master/src/lib/util/bridges.js:12 | A reply word holding n decodes to n under `parseInt(ret, 16)`. |
| `BridgeCalls.ProposerFromWord` | cryptobridge-client-master/src/lib/util/bridges.js:21 | getProposer returns `0x` and the reply from index 26. For a 66-character word that is its last 40 characters, and an address word gives the address back. |
| `BridgeCalls.ThresholdReplyRoundTrip` | cryptobridge-client-master/src/lib/util/bridges.js:30 | A threshold word holding n decodes to n under `parseInt`. |
| `BridgeCalls.StakeQueryDropsFirstByte` | cryptobridge-client-master/src/lib/util/bridges.js:88 | The getStake call data is `0x7a766460` and a 64-character word of the signer's hex minus its first byte. When that byte is not zero, the stake of a different address is asked for. |
| `BridgeCalls.SignerOfStakeWord` | cryptobridge-client-master/src/lib/util/bridges.js:89-92 | checkSig gives no signer exactly when the stake word holds 0. Otherwise it gives `0x` and the signer's full hex. |
| `BridgeCalls.SigWordsLayout` | cryptobridge-client-master/src/lib/util/bridges.js:39 | Each signature contributes 192 characters: the padded r, s and hex v words, in that order. |
| `BridgeCalls.SigDataLayout` | cryptobridge-client-master/src/lib/util/bridges.js:37-40 | sigData is `0x` plus 192 characters per signature, and its k-th block is the k-th signature's words, whenever every component fits 64 characters. |
| `BridgeCalls.QuorumOnWords` | cryptobridge-client-master/src/lib/util/bridges.js:116-117 | On reply words, the gate passes exactly when the count is at least the threshold; otherwise it reports both numbers. |
| `BridgeCalls.ProposeTx` | cryptobridge-client-master/src/lib/util/bridges.js:59-66 | The proposal goes to the bridge from the given address with the given data and nonce. Gas is 500000; the gas price is the given one, or 1000000000 when none is given. |
| `BridgeCalls.EnoughLogs` | cryptobridge-client-master/src/lib/util/bridges.js:127-128 | checkReceiptLogs answers true exactly when the receipt has at least `desired` logs. |
| `Bridges.Client.Call` | cryptobridge-client-master/src/lib/util/bridges.js:10 | `eth.call` appends its request to the log and answers with the node's reply to the history before it. |
| `Bridges.Client.GetTransactionCount` | cryptobridge-client-master/src/lib/util/bridges.js:47 | The nonce query appends its request to the log and answers with the node's reply. |
| `Bridges.Client.SendSignedTransaction` | cryptobridge-client-master/src/lib/util/bridges.js:69 | The broadcast appends its request to the log and answers with the node's reply. |
| `Bridges.Client.GetTransactionReceipt` | cryptobridge-client-master/src/lib/util/bridges.js:125 | The receipt query appends its request to the log and answers with the node's reply. |
| `Bridges.QuorumGate` | cryptobridge-client-master/src/lib/util/bridges.js:111-118 | The count call goes first, and the threshold is queried afresh only after a count came back. The gate never sends or fetches a nonce. It passes exactly when both replies parse and the count reaches the threshold. A node error is returned unchanged. |
| `Bridges.QuorumOnReplies` | cryptobridge-client-master/src/lib/util/bridges.js:111-118 | With count and threshold words from the node, the gate passes iff got >= needed; otherwise it reports `InsufficientSignatures(got, needed)`. |
| `Bridges.EmptySetAgainstThreeScenario` | cryptobridge-client-master/src/lib/util/bridges.js:98-121 | An empty signature set (`sigData` is `0x`) counted 0 against a threshold of 3 is refused with (0, 3). |
| `Bridges.ProposeNeedsQuorum` | cryptobridge-client-master/src/lib/util/bridges.js:42-45 | When the gate fails, propose sends only the gate's requests (no nonce query, no broadcast) and returns the gate's error unchanged. Any broadcast implies the gate passed. |
| `Bridges.ProposeAfterQuorum` | cryptobridge-client-master/src/lib/util/bridges.js:47-72 | After the gate passes, propose sends exactly the nonce query, then one broadcast of the signed proposal as its last request, and it succeeds exactly when the broadcast does. |
| `Bridges.ProposalTxFields` | cryptobridge-client-master/src/lib/util/bridges.js:57-66 | The proposal calls proposeRoot with the first signature's root and end and the whole blob, with gas 500000 and the given or default gas price. Its nonce is the fetched count, or none when that query failed. |
| `Bridges.ThreeOfFiveScenario` | cryptobridge-client-master/src/lib/util/bridges.js:42-45 | A set counted 3 against a threshold of 5 is refused with `InsufficientSignatures(3, 5)`, and nothing is broadcast. |
| `Bridges.GetLastBlock` | cryptobridge-client-master/src/lib/util/bridges.js:8-14 | One call with the getLastBlock data. A node error is passed through; otherwise the reply is read as base 16. |
| `Bridges.GetProposer` | cryptobridge-client-master/src/lib/util/bridges.js:17-23 | One call with the getProposer selector. A node error is passed through; otherwise `0x` and the reply from index 26. |
| `Bridges.GetThreshold` | cryptobridge-client-master/src/lib/util/bridges.js:26-32 | One call with the validatorThreshold selector. A node error is passed through; otherwise the reply is read by parseInt. |
| `Bridges.CheckSig` | cryptobridge-client-master/src/lib/util/bridges.js:80-94 | A signature that recovers no signer fails and sends nothing. Otherwise there is one getStake call for the recovered signer, and its answer is no signer for a zero stake and the `0x` address otherwise. |
| `Bridges.BuildSigData` | cryptobridge-client-master/src/lib/util/bridges.js:37-40 | The accumulation loop produces exactly `SigData` of the signatures, and `0x` for none. |
| `Bridges.CheckSigsContract` | cryptobridge-client-master/src/lib/util/bridges.js:98-121 | The quorum check returns exactly what `QuorumRun` says and sends exactly its requests. |
| `Bridges.Propose` | cryptobridge-client-master/src/lib/util/bridges.js:35-76 | propose returns exactly what `ProposeRun` says and sends exactly its requests. |
| `Bridges.CheckReceiptLogs` | cryptobridge-client-master/src/lib/util/bridges.js:124-131 | One receipt query. A node error is passed through, a missing receipt is an error, and otherwise the answer is whether the receipt has at least `desired` logs. |

## Left out

- Reading and writing `config.json` is not modelled. This covers `jsonfile` I/O, write errors, and `_ifExists` telling ENOENT apart from other read errors. The file is an in-memory `Option<Store>`. Directory creation is recorded only as a set of created address directories.
- The `Peer` transport and its `connect` and `error` handlers are not modelled. A loaded peer is only its host and port.
- ethutil.ecrecover/`pubToAddress` are not modelled: checkSig takes signature recovery as a function parameter. A recovery that throws is `None`.
- The ABI encoder `encodeFunctionCall` is an opaque function inside the node oracle. Only its method name and argument list are stated.
- eth.call, `getTransactionCount`, `sendSignedTransaction`, `getTransactionReceipt` and `signTx` are oracles. Their replies depend only on the earlier requests and the request itself.
- Callbacks and asynchrony are not modelled: every flow runs sequentially.
- parseInt is exact over unbounded integers. The precision loss of JavaScript numbers on 160-bit addresses is not modelled.
- parseInt skips only ASCII whitespace, U+00A0 and U+FEFF, not the full Unicode space set.
- String `<` compares code points. JavaScript compares UTF-16 code units; the two orders agree on the ASCII addresses used here.
- Ports are kept as strings.
- parseInt applied to a number that is already an integer is the identity. This covers `parseInt(thresh)` and `parseInt(sig.v)`.
- Registry.AddPeers: a missing file gives `Err(ConfigMissing)` and leaves the store as it was. In the source (config.js:84-101), `cb` is called with that message and execution falls through. With peers, the loop creates `{ peers: [...] }` under the index. With no peers, the file written is `{}`: an empty config.json now exists, after which getFirstIndex answers `undefined` instead of failing. Then `cb` is called a second time.
- Registry.GetHosts, ConfigFile.Config.GetPeers and Registry.AddPeers: an unknown group is an error result here. In the source it is a TypeError on `data[index]`.
- ConfigFile.Config.GetPeers: a group without a peer list is an error result here. In the source loadPeers throws a TypeError reading `hosts.length` (config.js:157). addPeers instead starts a missing list as `[]`, as config.js:85 does.
- Bridges.CheckSigsContract: below the threshold the result is `InsufficientSignatures(got, needed)`. The source builds its message from the undefined `thres`, so it would throw a ReferenceError instead.
- Bridges.CheckReceiptLogs: a pending transaction (no receipt) is the error `NoReceipt`. The source would throw a TypeError reading `receipt.logs`.
- Bridges.Propose requires a non-empty signature set, because root, start and end come from the first signature.
- ConfigFile.LoadPeers works on a sequence value. The emptying of the caller's array by `pop` is not modelled: getPeers discards that array.
