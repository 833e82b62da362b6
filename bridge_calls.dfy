/**
 * The strings and numbers the client exchanges with a bridge contract: hex call data
 * built from a 4-byte selector and 64-character zero-padded arguments, the decoding
 * of reply words, the concatenated signature blob of a proposal and the decisions
 * taken on replies.
 */
module BridgeCalls {
  import opened Wrappers
  import opened JsText

  /** getLastBlock(address) */
  const LastBlockSelector: string := "0x4929dfa1"
  /** getProposer() */
  const ProposerSelector: string := "0xe9790d02"
  /** validatorThreshold() */
  const ThresholdSelector: string := "0x4fd101d7"
  /** getStake(address) */
  const StakeSelector: string := "0x7a766460"
  const DefaultGasPrice: nat := 1000000000
  const ProposeGas: nat := 500000

  /** An ECDSA signature as a peer hands it over: r and s as hex, v as a number. */
  datatype Signature = Signature(r: string, s: string, v: nat)

  /** A signature over the root of the header range start..end. */
  datatype Candidate = Candidate(root: string, start: nat, end: nat, sig: Signature)

  /** An argument handed to the ABI encoder, with its declared type. */
  datatype AbiArg = Bytes32(hash: string) | AddressArg(addr: string) | Uint256(n: nat) | DynBytes(data: string)

  datatype BridgeError =
    | RpcError(msg: string)
    | InvalidSignature
    | InsufficientSignatures(got: Option<int>, needed: Option<int>)
    | NoReceipt

  /** The transaction fields of a proposal. */
  datatype Tx = Tx(to: string, from: string, data: string, gasPrice: nat, gas: nat, nonce: Option<nat>)

  /** One 32-byte argument: `leftPad(s, 64, '0')`. */
  function Word(s: string): string
  {
    LeftPad(s, 64, '0')
  }

  // ---------------------------------------------------------------------------
  // Call data and reply decoding
  // ---------------------------------------------------------------------------

  /** getLastBlock: the selector and the bridged address without its first two characters. */
  function LastBlockCallData(bridgedAddr: string): string
  {
    LastBlockSelector + Word(Slice(bridgedAddr, 2))
  }

  /** getLastBlock's reply, read by `parseInt(ret, 16)`. */
  function DecodeLastBlock(ret: string): Option<int>
  {
    ParseInt(ret, Hex)
  }

  /** getProposer's reply: `0x` and everything from index 26 on. */
  function DecodeProposer(res: string): string
  {
    "0x" + Slice(res, 26)
  }

  /** getThreshold's reply, read by `parseInt(res)`. */
  function DecodeThreshold(res: string): Option<int>
  {
    ParseInt(res, Auto)
  }

  /** checkSig's getStake call: `slice(2)` is applied to hex that has no `0x`. */
  function StakeCallData(signer: seq<Byte>): string
  {
    StakeSelector + Word(Slice(BytesToHex(signer), 2))
  }

  /** checkSig's answer: no signer when the stake reads as 0, the `0x` address otherwise. */
  function SignerOf(stake: string, signer: seq<Byte>): Option<string>
  {
    if ParseInt(stake, Auto) == Some(0) then None else Some("0x" + BytesToHex(signer))
  }

  /** The three 64-character words one signature contributes: r, s and v in hex. */
  function SigWords(sig: Signature): string
  {
    Word(sig.r) + Word(sig.s) + Word(ToHex(sig.v))
  }

  function SigConcat(sigs: seq<Candidate>): string
  {
    if sigs == [] then "" else SigConcat(sigs[..|sigs| - 1]) + SigWords(sigs[|sigs| - 1].sig)
  }

  /** propose's `sigData`: `0x` followed by the words of every signature in order. */
  function SigData(sigs: seq<Candidate>): string
  {
    "0x" + SigConcat(sigs)
  }

  /** The arguments of checkSignatures(bytes32 root, address chain, uint256 start, uint256 end, bytes sigs). */
  function CheckSignaturesArgs(root: string, chain: string, start: nat, end: nat, sigData: string): seq<AbiArg>
  {
    [Bytes32(root), AddressArg(chain), Uint256(start), Uint256(end), DynBytes(sigData)]
  }

  /** The arguments of proposeRoot(bytes32 headerRoot, address chainId, uint256 end, bytes sigs). */
  function ProposeArgs(root: string, chain: string, end: nat, sigData: string): seq<AbiArg>
  {
    [Bytes32(root), AddressArg(chain), Uint256(end), DynBytes(sigData)]
  }

  /**
   * The quorum gate: the contract's count against the threshold, both as parseInt
   * reads them (a NaN on either side fails the comparison).
   */
  function QuorumDecision(nSigs: string, thresh: Option<int>): (r: Result<bool, BridgeError>)
  {
    var got := ParseInt(nSigs, Auto);
    if got.Some? && thresh.Some? && got.value >= thresh.value then Ok(true)
    else Err(InsufficientSignatures(got, thresh))
  }

  /** The proposal transaction: fixed gas, gas price defaulting to 1 gwei. */
  function ProposeTx(bridge: string, from: string, data: string, gasPrice: Option<nat>, nonce: Option<nat>): (tx: Tx)
    ensures tx.to == bridge && tx.from == from && tx.data == data && tx.nonce == nonce
    ensures tx.gas == 500000
    ensures tx.gasPrice == if gasPrice.Some? then gasPrice.value else 1000000000
  {
    Tx(bridge, from, data, gasPrice.GetOr(DefaultGasPrice), ProposeGas, nonce)
  }

  /** checkReceiptLogs: false exactly when the receipt has fewer logs than desired. */
  function EnoughLogs(logCount: nat, desired: int): (ok: bool)
    ensures ok <==> logCount >= desired
  {
    !(logCount < desired)
  }

  // ---------------------------------------------------------------------------
  // Lemmas
  // ---------------------------------------------------------------------------

  /**
   * getLastBlock's call data is 74 characters for an address of at most 64 digits after
   * its first two characters: the selector, zeros, and those digits.
   */
  lemma LastBlockCallDataLayout(bridgedAddr: string)
    requires 2 <= |bridgedAddr| <= 66
    ensures var d := LastBlockCallData(bridgedAddr);
      && |d| == 74
      && d[..10] == LastBlockSelector
      && d[10..] == Repeat('0', 66 - |bridgedAddr|) + bridgedAddr[2..]
  {
    var digits := bridgedAddr[2..];
    var d := LastBlockCallData(bridgedAddr);
    assert Word(digits) == Repeat('0', 64 - |digits|) + digits;
    assert d == LastBlockSelector + Word(digits);
  }

  /** For a `0x` address of hex digits of either case, the argument word has the address's value. */
  lemma LastBlockArgumentValue(bridgedAddr: string)
    requires 2 < |bridgedAddr| <= 66 && bridgedAddr[..2] == "0x" && AllHexDigits(bridgedAddr[2..])
    ensures ParseInt("0x" + LastBlockCallData(bridgedAddr)[10..], Hex) == ParseInt(bridgedAddr, Hex)
  {
    var digits := bridgedAddr[2..];
    LastBlockCallDataLayout(bridgedAddr);
    assert bridgedAddr == "0x" + digits;
    var w := Repeat('0', 64 - |digits|) + digits;
    assert LastBlockCallData(bridgedAddr)[10..] == w;
    assert AllHexDigits(w) by {
      forall i | 0 <= i < |w| ensures IsDigit(w[i], 16) {
        if i >= |w| - |digits| {
          assert w[i] == digits[i - (|w| - |digits|)];
        }
      }
    }
    HexLiteralValue(w);
    HexLiteralValue(digits);
    LeadingZeros(64 - |digits|, digits, 16);
  }

  /** A reply word holding n in hex reads back as n. */
  lemma LastBlockReplyRoundTrip(n: nat)
    ensures DecodeLastBlock("0x" + Word(ToHex(n))) == Some(n)
  {
    HexWordRoundTrip(n, 64, Hex);
  }

  /** From a 66-character reply the proposer is the last 40 characters; an address word gives the address back. */
  lemma ProposerFromWord(res: string, addr: string)
    requires |addr| == 40
    ensures |res| >= 26 ==> DecodeProposer(res) == "0x" + res[26..] && |DecodeProposer(res)| == |res| - 24
    ensures |res| == 66 ==> DecodeProposer(res) == "0x" + res[|res| - 40..]
    ensures DecodeProposer("0x" + Word(addr)) == "0x" + addr
  {
    var w := "0x" + Word(addr);
    assert Word(addr) == Repeat('0', 24) + addr;
    assert w[26..] == addr;
  }

  /** A threshold word holding n in hex reads back as n. */
  lemma ThresholdReplyRoundTrip(n: nat)
    ensures DecodeThreshold("0x" + Word(ToHex(n))) == Some(n)
  {
    HexWordRoundTrip(n, 64, Auto);
  }

  /**
   * The getStake argument loses the signer's first byte: it is the word of the address
   * with that byte set to zero, so for a 20-byte signer whose first byte is not zero the
   * stake of a different address is asked for.
   */
  lemma StakeQueryDropsFirstByte(signer: seq<Byte>)
    requires 1 <= |signer| <= 32
    ensures StakeCallData(signer) == StakeSelector + Word(BytesToHex(signer[1..]))
    ensures StakeCallData(signer) == StakeSelector + Word(BytesToHex([0] + signer[1..]))
    ensures |StakeCallData(signer)| == 74
    ensures signer[0] != 0 ==> StakeCallData(signer) != StakeSelector + Word(BytesToHex(signer))
  {
    var rest := BytesToHex(signer[1..]);
    assert BytesToHex(signer) == ByteHex(signer[0]) + rest;
    assert BytesToHex([0] + signer[1..]) == ByteHex(0) + rest by {
      assert ([0] + signer[1..])[1..] == signer[1..];
    }
    assert ByteHex(0) == Repeat('0', 2);
    PadAbsorbsZeros(2, rest, 64);
    if signer[0] != 0 {
      var full := Word(BytesToHex(signer));
      var cut := Word(rest);
      var at := 64 - |rest| - 2;
      assert full[at] == HexChar(signer[0] / 16) && full[at + 1] == HexChar(signer[0] % 16) by {
        assert full[at..] == ByteHex(signer[0]) + rest;
      }
      assert cut[at] == '0' && cut[at + 1] == '0';
      if signer[0] / 16 != 0 {
        assert DigitValue(full[at]) != 0;
        assert full[at] != cut[at];
      } else {
        assert DigitValue(full[at + 1]) != 0;
        assert full[at + 1] != cut[at + 1];
      }
      assert (StakeSelector + cut)[10..] == cut && (StakeSelector + full)[10..] == full;
    }
  }

  /** The stake reply word holding n yields no signer exactly when n is 0. */
  lemma SignerOfStakeWord(n: nat, signer: seq<Byte>)
    ensures SignerOf("0x" + Word(ToHex(n)), signer) == if n == 0 then None else Some("0x" + BytesToHex(signer))
    ensures n != 0 ==> |SignerOf("0x" + Word(ToHex(n)), signer).value| == 2 + 2 * |signer|
  {
    HexWordRoundTrip(n, 64, Auto);
  }

  /** Every signature component fits one 64-character word. */
  predicate Fits(sig: Signature)
  {
    |sig.r| <= 64 && |sig.s| <= 64 && |ToHex(sig.v)| <= 64
  }

  lemma ThreeParts(a: string, b: string, c: string)
    ensures var w := a + b + c;
      w[..|a|] == a && w[|a|..|a| + |b|] == b && w[|a| + |b|..] == c
  {
    var w := a + b + c;
    assert w[|a|..] == b + c;
    assert (b + c)[..|b|] == b;
  }

  /** A signature's 192 characters: r's word, s's word, then v's word. */
  lemma SigWordsLayout(sig: Signature)
    requires Fits(sig)
    ensures var w := SigWords(sig);
      |w| == 192 && w[..64] == Word(sig.r) && w[64..128] == Word(sig.s) && w[128..] == Word(ToHex(sig.v))
  {
    var a, b, c := Word(sig.r), Word(sig.s), Word(ToHex(sig.v));
    assert |a| == 64 && |b| == 64 && |c| == 64;
    assert SigWords(sig) == a + b + c;
    ThreeParts(a, b, c);
  }

  /**
   * `sigData` is `0x` and 192 characters per signature, the k-th block being the
   * words of the k-th signature.
   */
  lemma {:induction false} SigDataLayout(sigs: seq<Candidate>)
    requires forall k :: 0 <= k < |sigs| ==> Fits(sigs[k].sig)
    ensures |SigData(sigs)| == 2 + 192 * |sigs|
    ensures SigData(sigs)[..2] == "0x"
    ensures forall k :: 0 <= k < |sigs| ==> SigData(sigs)[2 + 192 * k .. 2 + 192 * k + 192] == SigWords(sigs[k].sig)
  {
    forall k | 0 <= k < |sigs|
      ensures |SigWords(sigs[k].sig)| == 192
    {
      SigWordsLength(sigs[k].sig);
    }
    SigConcatLength(sigs);
    var c := SigConcat(sigs);
    forall k | 0 <= k < |sigs|
      ensures SigData(sigs)[2 + 192 * k .. 2 + 192 * k + 192] == SigWords(sigs[k].sig)
    {
      SigConcatBlock(sigs, k);
      SliceAfterPrefix("0x", c, 192 * k, 192 * k + 192);
    }
  }

  lemma SigWordsLength(sig: Signature)
    requires Fits(sig)
    ensures |SigWords(sig)| == 192
  {
  }

  /** The words of each signature, in order. */
  function WordsOf(sigs: seq<Candidate>): (ws: seq<string>)
    ensures |ws| == |sigs|
    ensures forall k :: 0 <= k < |sigs| ==> ws[k] == SigWords(sigs[k].sig)
  {
    seq(|sigs|, k requires 0 <= k < |sigs| => SigWords(sigs[k].sig))
  }

  function Flatten(ws: seq<string>): string
  {
    if ws == [] then "" else Flatten(ws[..|ws| - 1]) + ws[|ws| - 1]
  }

  lemma {:induction false} SigConcatFlattens(sigs: seq<Candidate>)
    ensures SigConcat(sigs) == Flatten(WordsOf(sigs))
  {
    if sigs != [] {
      var init := sigs[..|sigs| - 1];
      SigConcatFlattens(init);
      assert WordsOf(sigs)[..|sigs| - 1] == WordsOf(init);
    }
  }

  lemma {:induction false} FlattenLength(ws: seq<string>)
    requires forall k :: 0 <= k < |ws| ==> |ws[k]| == 192
    ensures |Flatten(ws)| == 192 * |ws|
  {
    if ws != [] {
      FlattenLength(ws[..|ws| - 1]);
    }
  }

  lemma {:induction false} FlattenBlock(ws: seq<string>, k: nat)
    requires forall j :: 0 <= j < |ws| ==> |ws[j]| == 192
    requires k < |ws|
    ensures |Flatten(ws)| == 192 * |ws|
    ensures Flatten(ws)[192 * k .. 192 * k + 192] == ws[k]
  {
    FlattenLength(ws);
    var n := |ws|;
    var init := ws[..n - 1];
    FlattenLength(init);
    var before, last := Flatten(init), ws[n - 1];
    assert Flatten(ws) == before + last;
    if k < n - 1 {
      FlattenBlock(init, k);
      SliceOfPrefix(before, last, 192 * k, 192 * k + 192);
    } else {
      assert (before + last)[|before|..] == last;
    }
  }

  lemma SigConcatLength(sigs: seq<Candidate>)
    requires forall k :: 0 <= k < |sigs| ==> |SigWords(sigs[k].sig)| == 192
    ensures |SigConcat(sigs)| == 192 * |sigs|
  {
    SigConcatFlattens(sigs);
    FlattenLength(WordsOf(sigs));
  }

  lemma SigConcatBlock(sigs: seq<Candidate>, k: nat)
    requires forall k :: 0 <= k < |sigs| ==> |SigWords(sigs[k].sig)| == 192
    requires k < |sigs|
    ensures |SigConcat(sigs)| == 192 * |sigs|
    ensures SigConcat(sigs)[192 * k .. 192 * k + 192] == SigWords(sigs[k].sig)
  {
    SigConcatFlattens(sigs);
    FlattenBlock(WordsOf(sigs), k);
  }

  lemma SliceAfterPrefix(p: string, q: string, i: nat, j: nat)
    requires i <= j <= |q|
    ensures (p + q)[|p| + i..|p| + j] == q[i..j]
  {
  }

  lemma SliceOfPrefix(p: string, q: string, i: nat, j: nat)
    requires i <= j <= |p|
    ensures (p + q)[i..j] == p[i..j]
  {
  }

  /**
   * On reply words, the gate passes exactly when the contract's count reaches the
   * threshold, and otherwise reports both numbers.
   */
  lemma QuorumOnWords(got: nat, needed: nat)
    ensures QuorumDecision("0x" + Word(ToHex(got)), DecodeThreshold("0x" + Word(ToHex(needed))))
      == if got >= needed then Ok(true) else Err(InsufficientSignatures(Some(got), Some(needed)))
  {
    HexWordRoundTrip(got, 64, Auto);
    HexWordRoundTrip(needed, 64, Auto);
  }
}
