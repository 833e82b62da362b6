/**
 * The bridge client's conversations with a chain node: the read-only queries, the
 * per-signature stake check, the on-chain quorum gate and the proposal that follows it.
 *
 * The node is an oracle. Every reply is a function of the requests the client sent
 * before it, so a `Client` only has to remember its request log; a pure `...Run`
 * function says which requests a flow sends and what it answers, and the methods
 * that talk to the client are proved against it.
 */
module Bridges {
  import opened Wrappers
  import opened JsText
  import opened BridgeCalls

  /** A request the client sends to the node. */
  datatype Request =
    | EthCall(to: string, data: string)
    | TxCount(addr: string)
    | SendSigned(raw: string)
    | ReceiptOf(hash: string)

  /**
   * The node and the ABI encoder. Each reply depends on the requests sent before it
   * and on the request itself; a receipt is the number of its logs, or none while the
   * transaction is pending.
   */
  datatype Node = Node(
    call: (seq<Request>, string, string) -> Result<string, string>,
    txCount: (seq<Request>, string) -> Result<nat, string>,
    send: (seq<Request>, string) -> Result<string, string>,
    receipt: (seq<Request>, string) -> Result<Option<nat>, string>,
    encode: (string, seq<AbiArg>) -> string)

  /** The proposer's wallet: its address and its transaction signer. */
  datatype Wallet = Wallet(address: string, signTx: Tx -> string)

  /** A connection to one node, with the log of the requests sent through it. */
  class Client {
    const node: Node
    var log: seq<Request>

    constructor(node: Node)
      ensures this.node == node && log == []
    {
      this.node := node;
      log := [];
    }

    /** `eth.call({to, data})` */
    method Call(to: string, data: string) returns (r: Result<string, string>)
      modifies this
      ensures log == old(log) + [EthCall(to, data)]
      ensures r == node.call(old(log), to, data)
    {
      r := node.call(log, to, data);
      log := log + [EthCall(to, data)];
    }

    /** `eth.getTransactionCount(addr)` */
    method GetTransactionCount(addr: string) returns (r: Result<nat, string>)
      modifies this
      ensures log == old(log) + [TxCount(addr)]
      ensures r == node.txCount(old(log), addr)
    {
      r := node.txCount(log, addr);
      log := log + [TxCount(addr)];
    }

    /** `eth.sendSignedTransaction(raw)` */
    method SendSignedTransaction(raw: string) returns (r: Result<string, string>)
      modifies this
      ensures log == old(log) + [SendSigned(raw)]
      ensures r == node.send(old(log), raw)
    {
      r := node.send(log, raw);
      log := log + [SendSigned(raw)];
    }

    /** `eth.getTransactionReceipt(hash)` */
    method GetTransactionReceipt(hash: string) returns (r: Result<Option<nat>, string>)
      modifies this
      ensures log == old(log) + [ReceiptOf(hash)]
      ensures r == node.receipt(old(log), hash)
    {
      r := node.receipt(log, hash);
      log := log + [ReceiptOf(hash)];
    }
  }

  /** No request in the list broadcasts a transaction. */
  predicate NoSend(reqs: seq<Request>)
  {
    forall i :: 0 <= i < |reqs| ==> !reqs[i].SendSigned?
  }

  /** No request in the list asks for a nonce. */
  predicate NoNonce(reqs: seq<Request>)
  {
    forall i :: 0 <= i < |reqs| ==> !reqs[i].TxCount?
  }

  // ---------------------------------------------------------------------------
  // Specification of the flows
  // ---------------------------------------------------------------------------

  /** The checkSignatures call data for a root, a chain, a header range and a signature blob. */
  function CheckSignaturesCall(node: Node, hRoot: string, chain: string, start: nat, end: nat, sigData: string): string
  {
    node.encode("checkSignatures", CheckSignaturesArgs(hRoot, chain, start, end, sigData))
  }

  /**
   * _checkSigsContract after history h: the count call, then (only if it answered) the
   * threshold call, then the comparison. Returns the answer and the requests sent.
   */
  function QuorumRun(node: Node, h: seq<Request>, hRoot: string, chain: string, start: nat, end: nat,
                     sigData: string, bridge: string): (Result<bool, BridgeError>, seq<Request>)
  {
    var countReq := EthCall(bridge, CheckSignaturesCall(node, hRoot, chain, start, end, sigData));
    var count := node.call(h, countReq.to, countReq.data);
    if count.Err? then (Err(RpcError(count.error)), [countReq])
    else
      var threshReq := EthCall(bridge, ThresholdSelector);
      var thresh := node.call(h + [countReq], bridge, ThresholdSelector);
      if thresh.Err? then (Err(RpcError(thresh.error)), [countReq, threshReq])
      else (QuorumDecision(count.value, DecodeThreshold(thresh.value)), [countReq, threshReq])
  }

  /** The proposeRoot call data for a signature set. */
  function ProposeCall(node: Node, sigs: seq<Candidate>, mappedChain: string): string
    requires |sigs| > 0
  {
    node.encode("proposeRoot", ProposeArgs(sigs[0].root, mappedChain, sigs[0].end, SigData(sigs)))
  }

  /** The proposal transaction built once the nonce query after history h has answered. */
  function ProposalTx(node: Node, h: seq<Request>, sigs: seq<Candidate>, bridge: string, mappedChain: string,
                      wallet: Wallet, gasPrice: Option<nat>): Tx
    requires |sigs| > 0
  {
    var nonce := node.txCount(h, wallet.address);
    ProposeTx(bridge, wallet.address, ProposeCall(node, sigs, mappedChain), gasPrice,
              if nonce.Ok? then Some(nonce.value) else None)
  }

  /**
   * propose after history h: the quorum gate over the signature blob, and only when it
   * passes the nonce query, the signing and the broadcast.
   */
  function ProposeRun(node: Node, h: seq<Request>, sigs: seq<Candidate>, bridge: string, mappedChain: string,
                      wallet: Wallet, gasPrice: Option<nat>): (Result<string, BridgeError>, seq<Request>)
    requires |sigs| > 0
  {
    var q := QuorumRun(node, h, sigs[0].root, mappedChain, sigs[0].start, sigs[0].end, SigData(sigs), bridge);
    if q.0.Err? then (Err(q.0.error), q.1)
    else
      var h1 := h + q.1;
      var nonceReq := TxCount(wallet.address);
      var raw := wallet.signTx(ProposalTx(node, h1, sigs, bridge, mappedChain, wallet, gasPrice));
      var sent := node.send(h1 + [nonceReq], raw);
      (if sent.Err? then Err(RpcError(sent.error)) else Ok(sent.value), q.1 + [nonceReq, SendSigned(raw)])
  }

  // ---------------------------------------------------------------------------
  // Properties of the flows
  // ---------------------------------------------------------------------------

  /**
   * The gate sends the count call first and asks for the threshold only after a count
   * came back, every time. It passes exactly when both replies parse and the count
   * reaches the threshold; a node error is handed back unchanged.
   */
  lemma QuorumGate(node: Node, h: seq<Request>, hRoot: string, chain: string, start: nat, end: nat,
                   sigData: string, bridge: string)
    ensures var (r, reqs) := QuorumRun(node, h, hRoot, chain, start, end, sigData, bridge);
      var countReq := EthCall(bridge, CheckSignaturesCall(node, hRoot, chain, start, end, sigData));
      var count := node.call(h, bridge, countReq.data);
      var thresh := node.call(h + [countReq], bridge, ThresholdSelector);
      && NoSend(reqs) && NoNonce(reqs)
      && (count.Err? ==> reqs == [countReq] && r == Err(RpcError(count.error)))
      && (count.Ok? ==> reqs == [countReq, EthCall(bridge, ThresholdSelector)])
      && (count.Ok? && thresh.Err? ==> r == Err(RpcError(thresh.error)))
      && (r.Ok? ==> r.value)
      && (r.Ok? <==>
            && count.Ok? && thresh.Ok?
            && ParseInt(count.value, Auto).Some? && DecodeThreshold(thresh.value).Some?
            && ParseInt(count.value, Auto).value >= DecodeThreshold(thresh.value).value)
  {
  }

  /**
   * With replies that are words holding the count and the threshold, the gate passes
   * exactly when got >= needed and otherwise reports both numbers; an empty signature
   * blob that the contract counts as 0 against a threshold of 3 reports (0, 3).
   */
  lemma QuorumOnReplies(node: Node, h: seq<Request>, hRoot: string, chain: string, start: nat, end: nat,
                        sigData: string, bridge: string, got: nat, needed: nat)
    requires node.call(h, bridge, CheckSignaturesCall(node, hRoot, chain, start, end, sigData))
      == Ok("0x" + Word(ToHex(got)))
    requires node.call(h + [EthCall(bridge, CheckSignaturesCall(node, hRoot, chain, start, end, sigData))],
                       bridge, ThresholdSelector)
      == Ok("0x" + Word(ToHex(needed)))
    ensures QuorumRun(node, h, hRoot, chain, start, end, sigData, bridge).0
      == if got >= needed then Ok(true) else Err(InsufficientSignatures(Some(got), Some(needed)))
  {
    QuorumOnWords(got, needed);
  }

  /** The quorum check on an empty signature set, counted 0 against a threshold of 3. */
  lemma EmptySetAgainstThreeScenario(node: Node, h: seq<Request>, hRoot: string, chain: string, start: nat, end: nat,
                                     bridge: string)
    requires node.call(h, bridge, CheckSignaturesCall(node, hRoot, chain, start, end, SigData([])))
      == Ok("0x" + Word(ToHex(0)))
    requires node.call(h + [EthCall(bridge, CheckSignaturesCall(node, hRoot, chain, start, end, SigData([])))],
                       bridge, ThresholdSelector)
      == Ok("0x" + Word(ToHex(3)))
    ensures SigData([]) == "0x"
    ensures QuorumRun(node, h, hRoot, chain, start, end, SigData([]), bridge).0
      == Err(InsufficientSignatures(Some(0), Some(3)))
  {
    QuorumOnReplies(node, h, hRoot, chain, start, end, SigData([]), bridge, 0, 3);
  }

  /**
   * propose never asks for a nonce and never signs or sends when the gate fails: it sends
   * the gate's requests only and answers with the gate's error.
   */
  lemma ProposeNeedsQuorum(node: Node, h: seq<Request>, sigs: seq<Candidate>, bridge: string, mappedChain: string,
                           wallet: Wallet, gasPrice: Option<nat>)
    requires |sigs| > 0
    ensures var q := QuorumRun(node, h, sigs[0].root, mappedChain, sigs[0].start, sigs[0].end, SigData(sigs), bridge);
      var (r, reqs) := ProposeRun(node, h, sigs, bridge, mappedChain, wallet, gasPrice);
      && (q.0.Err? ==> r == Err(q.0.error) && reqs == q.1 && NoSend(reqs) && NoNonce(reqs))
      && (!NoSend(reqs) ==> q.0 == Ok(true))
  {
    QuorumGate(node, h, sigs[0].root, mappedChain, sigs[0].start, sigs[0].end, SigData(sigs), bridge);
  }

  /**
   * Once the gate passes, propose asks for the wallet's nonce and then broadcasts exactly
   * one transaction, as its last request: the signed proposal transaction. It succeeds
   * exactly when the broadcast does.
   */
  lemma ProposeAfterQuorum(node: Node, h: seq<Request>, sigs: seq<Candidate>, bridge: string, mappedChain: string,
                           wallet: Wallet, gasPrice: Option<nat>)
    requires |sigs| > 0
    ensures var q := QuorumRun(node, h, sigs[0].root, mappedChain, sigs[0].start, sigs[0].end, SigData(sigs), bridge);
      var (r, reqs) := ProposeRun(node, h, sigs, bridge, mappedChain, wallet, gasPrice);
      q.0.Ok? ==>
        var raw := wallet.signTx(ProposalTx(node, h + q.1, sigs, bridge, mappedChain, wallet, gasPrice));
        && reqs == q.1 + [TxCount(wallet.address), SendSigned(raw)]
        && NoSend(reqs[..|reqs| - 1])
        && (r.Ok? <==> node.send(h + q.1 + [TxCount(wallet.address)], raw).Ok?)
  {
    var q := QuorumRun(node, h, sigs[0].root, mappedChain, sigs[0].start, sigs[0].end, SigData(sigs), bridge);
    QuorumGate(node, h, sigs[0].root, mappedChain, sigs[0].start, sigs[0].end, SigData(sigs), bridge);
    if q.0.Ok? {
      var reqs := ProposeRun(node, h, sigs, bridge, mappedChain, wallet, gasPrice).1;
      assert reqs[..|reqs| - 1] == q.1 + [TxCount(wallet.address)];
    }
  }

  /**
   * The proposal transaction goes to the bridge from the wallet's address, calls
   * proposeRoot over the first signature's root and end and the whole blob, with gas
   * 500000, the given or default gas price, and the fetched nonce (none when that query
   * failed).
   */
  lemma ProposalTxFields(node: Node, h: seq<Request>, sigs: seq<Candidate>, bridge: string, mappedChain: string,
                         wallet: Wallet, gasPrice: Option<nat>)
    requires |sigs| > 0
    ensures var tx := ProposalTx(node, h, sigs, bridge, mappedChain, wallet, gasPrice);
      var nonce := node.txCount(h, wallet.address);
      && tx.to == bridge && tx.from == wallet.address && tx.gas == 500000
      && tx.data == node.encode("proposeRoot", [Bytes32(sigs[0].root), AddressArg(mappedChain), Uint256(sigs[0].end), DynBytes(SigData(sigs))])
      && tx.gasPrice == (if gasPrice.Some? then gasPrice.value else 1000000000)
      && tx.nonce == (if nonce.Ok? then Some(nonce.value) else None)
  {
  }

  /**
   * A signature set counted 3 against a threshold of 5 is refused with
   * InsufficientSignatures(3, 5), and nothing is broadcast.
   */
  lemma ThreeOfFiveScenario(node: Node, h: seq<Request>, sigs: seq<Candidate>, bridge: string, mappedChain: string,
                            wallet: Wallet, gasPrice: Option<nat>)
    requires |sigs| > 0
    requires node.call(h, bridge, CheckSignaturesCall(node, sigs[0].root, mappedChain, sigs[0].start, sigs[0].end, SigData(sigs)))
      == Ok("0x" + Word(ToHex(3)))
    requires node.call(h + [EthCall(bridge, CheckSignaturesCall(node, sigs[0].root, mappedChain, sigs[0].start, sigs[0].end, SigData(sigs)))],
                       bridge, ThresholdSelector)
      == Ok("0x" + Word(ToHex(5)))
    ensures ProposeRun(node, h, sigs, bridge, mappedChain, wallet, gasPrice).0 == Err(InsufficientSignatures(Some(3), Some(5)))
    ensures NoSend(ProposeRun(node, h, sigs, bridge, mappedChain, wallet, gasPrice).1)
  {
    QuorumOnReplies(node, h, sigs[0].root, mappedChain, sigs[0].start, sigs[0].end, SigData(sigs), bridge, 3, 5);
    ProposeNeedsQuorum(node, h, sigs, bridge, mappedChain, wallet, gasPrice);
  }

  // ---------------------------------------------------------------------------
  // The client-side operations
  // ---------------------------------------------------------------------------

  /** getLastBlock: one call to the queried bridge, its reply read as base-16. */
  method GetLastBlock(queryAddr: string, bridgedAddr: string, client: Client) returns (r: Result<Option<int>, BridgeError>)
    modifies client
    ensures client.log == old(client.log) + [EthCall(queryAddr, LastBlockCallData(bridgedAddr))]
    ensures var reply := client.node.call(old(client.log), queryAddr, LastBlockCallData(bridgedAddr));
      r == if reply.Err? then Err(RpcError(reply.error)) else Ok(DecodeLastBlock(reply.value))
  {
    var data := LastBlockSelector + LeftPad(Slice(bridgedAddr, 2), 64, '0');
    var reply := client.Call(queryAddr, data);
    if reply.Err? {
      r := Err(RpcError(reply.error));
    } else {
      r := Ok(ParseInt(reply.value, Hex));
    }
  }

  /** getProposer: one call to the queried bridge, the address taken from the reply word. */
  method GetProposer(queryAddr: string, client: Client) returns (r: Result<string, BridgeError>)
    modifies client
    ensures client.log == old(client.log) + [EthCall(queryAddr, ProposerSelector)]
    ensures var reply := client.node.call(old(client.log), queryAddr, ProposerSelector);
      r == if reply.Err? then Err(RpcError(reply.error)) else Ok(DecodeProposer(reply.value))
  {
    var reply := client.Call(queryAddr, ProposerSelector);
    if reply.Err? {
      r := Err(RpcError(reply.error));
    } else {
      r := Ok("0x" + Slice(reply.value, 26));
    }
  }

  /** getThreshold: one call to the bridge, its reply read by parseInt. */
  method GetThreshold(bridge: string, client: Client) returns (r: Result<Option<int>, BridgeError>)
    modifies client
    ensures client.log == old(client.log) + [EthCall(bridge, ThresholdSelector)]
    ensures var reply := client.node.call(old(client.log), bridge, ThresholdSelector);
      r == if reply.Err? then Err(RpcError(reply.error)) else Ok(DecodeThreshold(reply.value))
  {
    var reply := client.Call(bridge, ThresholdSelector);
    if reply.Err? {
      r := Err(RpcError(reply.error));
    } else {
      r := Ok(ParseInt(reply.value, Auto));
    }
  }

  /**
   * checkSig: recover the signer of h from the signature, then ask the bridge for its
   * stake. No signer comes back for a zero stake. A signature that recovers to nothing
   * (ecrecover throws) fails without any request.
   */
  method CheckSig(h: string, sig: Signature, bridge: string, recover: (string, nat, string, string) -> Option<seq<Byte>>,
                  client: Client) returns (r: Result<Option<string>, BridgeError>)
    modifies client
    ensures recover(h, sig.v, sig.r, sig.s).None? ==> r == Err(InvalidSignature) && client.log == old(client.log)
    ensures recover(h, sig.v, sig.r, sig.s).Some? ==>
      var signer := recover(h, sig.v, sig.r, sig.s).value;
      var stake := client.node.call(old(client.log), bridge, StakeCallData(signer));
      && client.log == old(client.log) + [EthCall(bridge, StakeCallData(signer))]
      && r == if stake.Err? then Err(RpcError(stake.error)) else Ok(SignerOf(stake.value, signer))
  {
    var recovered := recover(h, sig.v, sig.r, sig.s);
    if recovered.None? {
      return Err(InvalidSignature);
    }
    var signer := recovered.value;
    var hex := BytesToHex(signer);
    var stake := client.Call(bridge, StakeSelector + LeftPad(Slice(hex, 2), 64, '0'));
    if stake.Err? {
      r := Err(RpcError(stake.error));
    } else if ParseInt(stake.value, Auto) == Some(0) {
      r := Ok(None);
    } else {
      r := Ok(Some("0x" + hex));
    }
  }

  /** propose's `forEach` over the signatures, appending each one's three words. */
  method BuildSigData(sigs: seq<Candidate>) returns (sigData: string)
    ensures sigData == SigData(sigs)
    ensures |sigs| == 0 ==> sigData == "0x"
  {
    sigData := "0x";
    var i := 0;
    while i < |sigs|
      invariant 0 <= i <= |sigs|
      invariant sigData == "0x" + SigConcat(sigs[..i])
    {
      var sig := sigs[i].sig;
      var words := Word(sig.r) + Word(sig.s) + Word(ToHex(sig.v));
      SigConcatStep(sigs, i);
      sigData := sigData + words;
      i := i + 1;
    }
    assert sigs[..i] == sigs;
  }

  lemma SigConcatStep(sigs: seq<Candidate>, i: nat)
    requires i < |sigs|
    ensures "0x" + SigConcat(sigs[..i + 1]) == ("0x" + SigConcat(sigs[..i])) + SigWords(sigs[i].sig)
  {
    assert sigs[..i + 1][..i] == sigs[..i];
    assert SigConcat(sigs[..i + 1]) == SigConcat(sigs[..i]) + SigWords(sigs[i].sig);
  }

  /** _checkSigsContract: the contract's count of the blob, then a fresh threshold. */
  method CheckSigsContract(hRoot: string, chain: string, start: nat, end: nat, sigData: string, bridge: string,
                           client: Client) returns (r: Result<bool, BridgeError>)
    modifies client
    ensures var run := QuorumRun(client.node, old(client.log), hRoot, chain, start, end, sigData, bridge);
      r == run.0 && client.log == old(client.log) + run.1
  {
    var call := client.node.encode("checkSignatures", CheckSignaturesArgs(hRoot, chain, start, end, sigData));
    var nSigs := client.Call(bridge, call);
    if nSigs.Err? {
      return Err(RpcError(nSigs.error));
    }
    var thresh := GetThreshold(bridge, client);
    if thresh.Err? {
      return Err(thresh.error);
    }
    var got := ParseInt(nSigs.value, Auto);
    if got.Some? && thresh.value.Some? && got.value >= thresh.value.value {
      r := Ok(true);
    } else {
      r := Err(InsufficientSignatures(got, thresh.value));
    }
  }

  /**
   * propose: build the blob, pass the quorum gate, then fetch the nonce, build and sign
   * the proposeRoot transaction and broadcast it.
   */
  method Propose(sigs: seq<Candidate>, bridge: string, mappedChain: string, wallet: Wallet, client: Client,
                 gasPrice: Option<nat>) returns (r: Result<string, BridgeError>)
    requires |sigs| > 0
    modifies client
    ensures var run := ProposeRun(client.node, old(client.log), sigs, bridge, mappedChain, wallet, gasPrice);
      r == run.0 && client.log == old(client.log) + run.1
  {
    var from := wallet.address;
    var sigData := BuildSigData(sigs);
    var success := CheckSigsContract(sigs[0].root, mappedChain, sigs[0].start, sigs[0].end, sigData, bridge, client);
    if success.Err? {
      return Err(success.error);
    }
    ghost var h1 := client.log;
    var nonce := client.GetTransactionCount(from);
    var data := client.node.encode("proposeRoot", ProposeArgs(sigs[0].root, mappedChain, sigs[0].end, sigData));
    var tx := Tx(bridge, wallet.address, data, gasPrice.GetOr(DefaultGasPrice), ProposeGas,
                 if nonce.Ok? then Some(nonce.value) else None);
    assert tx == ProposalTx(client.node, h1, sigs, bridge, mappedChain, wallet, gasPrice);
    var signedTx := wallet.signTx(tx);
    var h := client.SendSignedTransaction(signedTx);
    if h.Err? {
      r := Err(RpcError(h.error));
    } else {
      r := Ok(h.value);
    }
  }

  /**
   * checkReceiptLogs: one receipt query; true exactly when the receipt has at least
   * `desired` logs. A pending transaction has no receipt to read.
   */
  method CheckReceiptLogs(desired: int, hash: string, client: Client) returns (r: Result<bool, BridgeError>)
    modifies client
    ensures client.log == old(client.log) + [ReceiptOf(hash)]
    ensures var receipt := client.node.receipt(old(client.log), hash);
      && (receipt.Err? ==> r == Err(RpcError(receipt.error)))
      && (receipt == Ok(None) ==> r == Err(NoReceipt))
      && (receipt.Ok? && receipt.value.Some? ==> r == Ok(receipt.value.value >= desired))
  {
    var receipt := client.GetTransactionReceipt(hash);
    if receipt.Err? {
      r := Err(RpcError(receipt.error));
    } else if receipt.value.None? {
      r := Err(NoReceipt);
    } else {
      r := Ok(EnoughLogs(receipt.value.value, desired));
    }
  }
}
