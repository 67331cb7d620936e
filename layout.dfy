/**
 * The canonical byte layout of a transaction (`Transaction._to_bytes` and
 * `_handle_signature` in bpl_lib/transactions/Transaction.py), stated as pure
 * functions over a snapshot of the transaction's fields, together with the
 * hashes that signing, identification and verification compute from it.
 */
module TransactionBytes {
  import opened Wrappers
  import opened ByteBuffer
  import opened Hex

  /** The ways encoding can raise. */
  datatype Error =
    | MalformedHex        // unhexlify of a key, vendor field or signature failed
    | InvalidAddress      // b58decode_check rejected the recipient address
    | VendorFieldTooLong  // bytes(64 - len) with a decoded vendor field over 64 bytes
    | MissingFee          // write_long(None): the fee was never set
    | ValueOutOfRange     // an integer that does not fit its fixed width
    | NotImplemented      // the base class's _handle_transaction_type
    | AssetError(reason: string)  // raised by a concrete type's asset encoder

  /**
   * Collaborators outside the model: key derivation (`Keys(secret).get_public_key()`),
   * `sha256`, the signing primitive (`Signature(secret).sign(hash)["signature"]`)
   * and base58-with-checksum decoding, which may fail and whose result length
   * is not checked.
   */
  datatype Env = Env(
    publicKey: string -> string,
    sha256: seq<byte> -> seq<byte>,
    sign: (string, seq<byte>) -> string,
    b58decodeCheck: string -> Option<seq<byte>>)

  /**
   * `_handle_transaction_type`: the base class raises NotImplementedError; a
   * concrete transaction type appends its asset bytes, computed from the
   * buffer written so far, or raises.
   */
  datatype TypeHook =
    | Abstract
    | AssetWriter(write: seq<byte> -> Result<seq<byte>, Error>)

  /** The fields `_to_bytes` reads. Absent optional fields are None, as in Python. */
  datatype TxState = TxState(
    txType: int,
    timestamp: int,
    senderPublicKey: string,
    requesterPublicKey: Option<string>,
    recipientId: Option<string>,
    vendorField: Option<string>,
    amount: int,
    fee: Option<int>,
    signature: Option<string>,
    signSignature: Option<string>)

  /** Python truthiness of an optional string: set and non-empty. */
  predicate Truthy(o: Option<string>) {
    o.Some? && o.value != ""
  }

  const RecipientWidth: nat := 21
  const VendorFieldWidth: nat := 64

  /** The eight sections written before the asset bytes, in writing order. */
  datatype Header = Header(
    typeByte: seq<byte>,
    timestamp: seq<byte>,
    sender: seq<byte>,
    requester: seq<byte>,
    recipient: seq<byte>,
    vendor: seq<byte>,
    amount: seq<byte>,
    fee: seq<byte>)

  function Flatten(h: Header): seq<byte> {
    h.typeByte + h.timestamp + h.sender + h.requester + h.recipient + h.vendor + h.amount + h.fee
  }

  /** A fixed-width unsigned little-endian integer section (`write_byte`/`write_int`/`write_long`). */
  function UIntSection(v: int, width: nat): (r: Result<seq<byte>, Error>)
    ensures r.Success? <==> Fits(v, width)
    ensures r.Failure? ==> r.error == ValueOutOfRange
    ensures r.Success? ==> |r.value| == width && FromLittleEndian(r.value) == v
  {
    if Fits(v, width) then
      LittleEndianRoundTrip(v, width);
      Success(LittleEndian(v, width))
    else Failure(ValueOutOfRange)
  }

  /** A hex-encoded key written verbatim as its decoded bytes. */
  function KeySection(hex: string): (r: Result<seq<byte>, Error>)
    ensures r.Success? <==> IsHexText(hex)
    ensures r.Failure? ==> r.error == MalformedHex
    ensures r.Success? ==> 2 * |r.value| == |hex| && Hexlify(r.value) == LowerHex(hex)
  {
    match Unhexlify(hex)
    case Some(b) =>
      HexlifyUnhexlify(hex);
      Success(b)
    case None => Failure(MalformedHex)
  }

  /** The requester key: written only when it is set. */
  function RequesterSection(key: Option<string>): (r: Result<seq<byte>, Error>)
    ensures r.Success? <==> (Truthy(key) ==> IsHexText(key.value))
    ensures r.Failure? ==> r.error == MalformedHex
    ensures r.Success? && !Truthy(key) ==> r.value == []
    ensures r.Success? && Truthy(key) ==>
      2 * |r.value| == |key.value| && Hexlify(r.value) == LowerHex(key.value)
  {
    if Truthy(key) then KeySection(key.value) else Success([])
  }

  /** The recipient: the decoded address, or 21 zero bytes when there is none. */
  function RecipientSection(env: Env, recipientId: Option<string>): (r: Result<seq<byte>, Error>)
    ensures r.Success? <==> (Truthy(recipientId) ==> env.b58decodeCheck(recipientId.value).Some?)
    ensures r.Failure? ==> r.error == InvalidAddress
    ensures r.Success? && Truthy(recipientId) ==> Some(r.value) == env.b58decodeCheck(recipientId.value)
    ensures !Truthy(recipientId) ==>
      r.Success? && |r.value| == RecipientWidth && forall i | 0 <= i < |r.value| :: r.value[i] == 0
  {
    if Truthy(recipientId) then
      match env.b58decodeCheck(recipientId.value)
      case Some(address) => Success(address)
      case None => Failure(InvalidAddress)
    else Success(Zeros(RecipientWidth))
  }

  /** The vendor field: its decoded bytes right-padded with zeros to exactly 64 bytes. */
  function VendorSection(vendorField: Option<string>): (r: Result<seq<byte>, Error>)
    ensures r.Success? ==> |r.value| == VendorFieldWidth
    ensures !Truthy(vendorField) ==> r == Success(Zeros(VendorFieldWidth))
    ensures Truthy(vendorField) ==>
      match Unhexlify(vendorField.value)
      case None => r == Failure(MalformedHex)
      case Some(d) =>
        if |d| <= VendorFieldWidth then
          r.Success? && r.value[..|d|] == d && r.value[|d|..] == Zeros(VendorFieldWidth - |d|)
        else r == Failure(VendorFieldTooLong)
  {
    if Truthy(vendorField) then
      match Unhexlify(vendorField.value)
      case None => Failure(MalformedHex)
      case Some(d) =>
        if |d| <= VendorFieldWidth then
          var padded := d + Zeros(VendorFieldWidth - |d|);
          assert padded[..|d|] == d && padded[|d|..] == Zeros(VendorFieldWidth - |d|);
          Success(padded)
        else Failure(VendorFieldTooLong)
    else Success(Zeros(VendorFieldWidth))
  }

  /** The fee: an unset fee makes `write_long(None)` raise. */
  function FeeSection(fee: Option<int>): (r: Result<seq<byte>, Error>)
    ensures r.Success? <==> fee.Some? && Fits(fee.value, LongWidth)
    ensures r.Failure? ==> r.error == (if fee.None? then MissingFee else ValueOutOfRange)
    ensures r.Success? ==> |r.value| == LongWidth && FromLittleEndian(r.value) == fee.value
  {
    match fee
    case None => Failure(MissingFee)
    case Some(f) => UIntSection(f, LongWidth)
  }

  /** Every condition under which the sections before the asset can be written. */
  predicate HeaderEncodable(env: Env, st: TxState) {
    && Fits(st.txType, ByteWidth)
    && Fits(st.timestamp, IntWidth)
    && IsHexText(st.senderPublicKey)
    && (Truthy(st.requesterPublicKey) ==> IsHexText(st.requesterPublicKey.value))
    && (Truthy(st.recipientId) ==> env.b58decodeCheck(st.recipientId.value).Some?)
    && (Truthy(st.vendorField) ==>
          IsHexText(st.vendorField.value) && |st.vendorField.value| <= 2 * VendorFieldWidth)
    && Fits(st.amount, LongWidth)
    && st.fee.Some? && Fits(st.fee.value, LongWidth)
  }

  /** Lines 85-109 of `_to_bytes`: the sections before the asset, failing on the first bad field. */
  function EncodeHeader(env: Env, st: TxState): (r: Result<Header, Error>)
    ensures r.Success? <==> HeaderEncodable(env, st)
  {
    var typeByte :- UIntSection(st.txType, ByteWidth);
    var timestamp :- UIntSection(st.timestamp, IntWidth);
    var sender :- KeySection(st.senderPublicKey);
    var requester :- RequesterSection(st.requesterPublicKey);
    var recipient :- RecipientSection(env, st.recipientId);
    var vendor :- VendorSection(st.vendorField);
    var amount :- UIntSection(st.amount, LongWidth);
    var fee :- FeeSection(st.fee);
    Success(Header(typeByte, timestamp, sender, requester, recipient, vendor, amount, fee))
  }

  /** Each pre-asset section of a successful header has its fixed width and the field's content. */
  lemma HeaderContents(env: Env, st: TxState)
    requires EncodeHeader(env, st).Success?
    ensures
      var h := EncodeHeader(env, st).value;
      && |h.typeByte| == ByteWidth && FromLittleEndian(h.typeByte) == st.txType
      && |h.timestamp| == IntWidth && FromLittleEndian(h.timestamp) == st.timestamp
      && Some(h.sender) == Unhexlify(st.senderPublicKey)
      && (if Truthy(st.requesterPublicKey)
          then Some(h.requester) == Unhexlify(st.requesterPublicKey.value)
          else h.requester == [])
      && (if Truthy(st.recipientId)
          then Some(h.recipient) == env.b58decodeCheck(st.recipientId.value)
          else h.recipient == Zeros(RecipientWidth))
      && Success(h.vendor) == VendorSection(st.vendorField) && |h.vendor| == VendorFieldWidth
      && |h.amount| == LongWidth && FromLittleEndian(h.amount) == st.amount
      && |h.fee| == LongWidth && FromLittleEndian(h.fee) == st.fee.value
  {
  }

  /** `_handle_transaction_type` applied to the buffer written so far: it only ever appends. */
  function WithAsset(hook: TypeHook, buffer: seq<byte>): (r: Result<seq<byte>, Error>)
    ensures hook.Abstract? ==> r == Failure(NotImplemented)
    ensures r.Success? ==> buffer <= r.value
  {
    match hook
    case Abstract => Failure(NotImplemented)
    case AssetWriter(write) =>
      var asset :- write(buffer);
      Success(buffer + asset)
  }

  /** A signature is included when it is not skipped and is set. */
  predicate Included(skip: bool, sig: Option<string>) {
    !skip && Truthy(sig)
  }

  /** One signature section of `_handle_signature`: written only when included. */
  function SignatureSection(skip: bool, sig: Option<string>): (r: Result<seq<byte>, Error>)
    ensures r.Success? <==> (Included(skip, sig) ==> IsHexText(sig.value))
    ensures r.Failure? ==> r.error == MalformedHex
    ensures r.Success? && r.value != [] ==> Included(skip, sig)
    ensures r.Success? && Included(skip, sig) ==>
      2 * |r.value| == |sig.value| && Hexlify(r.value) == LowerHex(sig.value)
  {
    if Included(skip, sig) then KeySection(sig.value) else Success([])
  }

  /** Lines 129-133: the first signature's bytes, then the second's, each only if included and set. */
  function SignatureSuffix(st: TxState, skipSignature: bool, skipSecondSignature: bool): (r: Result<seq<byte>, Error>)
    ensures r.Success? <==>
      (Included(skipSignature, st.signature) ==> IsHexText(st.signature.value)) &&
      (Included(skipSecondSignature, st.signSignature) ==> IsHexText(st.signSignature.value))
    ensures r.Failure? ==> r.error == MalformedHex
    ensures r.Success? ==>
      var n1 := if Included(skipSignature, st.signature) then |st.signature.value| / 2 else 0;
      var n2 := if Included(skipSecondSignature, st.signSignature) then |st.signSignature.value| / 2 else 0;
      && |r.value| == n1 + n2
      && Hexlify(r.value[..n1]) == (if Included(skipSignature, st.signature) then LowerHex(st.signature.value) else "")
      && Hexlify(r.value[n1..]) == (if Included(skipSecondSignature, st.signSignature) then LowerHex(st.signSignature.value) else "")
  {
    var first :- SignatureSection(skipSignature, st.signature);
    var second :- SignatureSection(skipSecondSignature, st.signSignature);
    assert (first + second)[..|first|] == first && (first + second)[|first|..] == second;
    Success(first + second)
  }

  /** Everything `_to_bytes` writes before `_handle_signature`: the header, then the asset bytes. */
  function Body(env: Env, hook: TypeHook, st: TxState): (r: Result<seq<byte>, Error>)
    ensures hook.Abstract? ==> r.Failure?
    ensures r.Success? ==> HeaderEncodable(env, st) && Flatten(EncodeHeader(env, st).value) <= r.value
  {
    var header :- EncodeHeader(env, st);
    WithAsset(hook, Flatten(header))
  }

  /** `_to_bytes(skip_signature, skip_second_signature)`: header, asset bytes, signature sections. */
  function Encode(env: Env, hook: TypeHook, st: TxState, skipSignature: bool, skipSecondSignature: bool)
    : (r: Result<seq<byte>, Error>)
    ensures hook.Abstract? ==> r.Failure?
    ensures r.Success? ==> HeaderEncodable(env, st) && Body(env, hook, st).Success? && Body(env, hook, st).value <= r.value
  {
    var body :- Body(env, hook, st);
    var signatures :- SignatureSuffix(st, skipSignature, skipSecondSignature);
    Success(body + signatures)
  }

  // The bytes whose hash each signing and verifying step uses, with the flags
  // exactly as the source passes them.

  /** `_sign` hashes with the default flags: both signatures skipped, so just the header and asset bytes. */
  function SignMessage(env: Env, hook: TypeHook, st: TxState): (r: Result<seq<byte>, Error>)
    ensures r == Body(env, hook, st)
  {
    EncodeSplit(env, hook, st, true, true);
    assert SignatureSuffix(st, true, true) == Success([]);
    assert Body(env, hook, st).Success? ==> Body(env, hook, st).value + [] == Body(env, hook, st).value;
    Encode(env, hook, st, true, true)
  }

  /** `_second_sign` hashes with the first signature included, the second skipped. */
  function SecondSignMessage(env: Env, hook: TypeHook, st: TxState): (r: Result<seq<byte>, Error>)
    ensures r.Success? <==>
      SignMessage(env, hook, st).Success? && (Truthy(st.signature) ==> IsHexText(st.signature.value))
    ensures r.Success? ==> SignMessage(env, hook, st).value <= r.value
  {
    EncodeSplit(env, hook, st, false, true);
    Encode(env, hook, st, false, true)
  }

  /**
   * `verify` hashes with the first signature included, the second skipped:
   * exactly the bytes `_second_sign` signs, not those `_sign` signs.
   */
  function VerifyMessage(env: Env, hook: TypeHook, st: TxState): (r: Result<seq<byte>, Error>)
    ensures r == SecondSignMessage(env, hook, st)
  {
    Encode(env, hook, st, false, true)
  }

  /** `second_verify` hashes with both signatures included. */
  function SecondVerifyMessage(env: Env, hook: TypeHook, st: TxState): (r: Result<seq<byte>, Error>)
    ensures r.Success? <==>
      SecondSignMessage(env, hook, st).Success? && (Truthy(st.signSignature) ==> IsHexText(st.signSignature.value))
    ensures r.Success? ==> SecondSignMessage(env, hook, st).value <= r.value
  {
    EncodeSplit(env, hook, st, false, true);
    EncodeSplit(env, hook, st, false, false);
    SecondSignatureExtends(st);
    if Encode(env, hook, st, false, false).Success? then
      AppendKeepsPrefix(Body(env, hook, st).value, SignatureSuffix(st, false, true).value,
        SignatureSuffix(st, false, false).value);
      Encode(env, hook, st, false, false)
    else
      Encode(env, hook, st, false, false)
  }

  /** Including the second signature only extends the signature sections. */
  lemma SecondSignatureExtends(st: TxState)
    ensures SignatureSuffix(st, false, false).Success? <==>
      SignatureSuffix(st, false, true).Success? && (Truthy(st.signSignature) ==> IsHexText(st.signSignature.value))
    ensures SignatureSuffix(st, false, false).Success? ==>
      SignatureSuffix(st, false, true).value <= SignatureSuffix(st, false, false).value
  {
    var first := SignatureSection(false, st.signature);
    assert first.Success? ==> SignatureSuffix(st, false, true) == Success(first.value + []);
  }

  lemma AppendKeepsPrefix(x: seq<byte>, a: seq<byte>, b: seq<byte>)
    requires a <= b
    ensures x + a <= x + b
  {
    assert (x + b)[..|x + a|] == x + b[..|a|];
  }

  /** What `verify` evidently means to check: the bytes `_sign` signed. */
  function IntendedVerifyMessage(env: Env, hook: TypeHook, st: TxState): Result<seq<byte>, Error> {
    SignMessage(env, hook, st)
  }

  /** What `second_verify` evidently means to check: the bytes `_second_sign` signed. */
  function IntendedSecondVerifyMessage(env: Env, hook: TypeHook, st: TxState): Result<seq<byte>, Error> {
    SecondSignMessage(env, hook, st)
  }

  // ---------------------------------------------------------------------
  // Properties of the layout
  // ---------------------------------------------------------------------

  /** Where the header ends and the amount and fee begin. */
  function AmountOffset(h: Header): nat {
    |h.typeByte| + |h.timestamp| + |h.sender| + |h.requester| + |h.recipient| + |h.vendor|
  }

  lemma SectionAt(before: seq<byte>, section: seq<byte>, whole: seq<byte>)
    requires before + section <= whole
    ensures whole[|before|..|before| + |section|] == section
  {
    assert whole[..|before| + |section|] == before + section;
  }

  lemma PrefixTrans(a: seq<byte>, b: seq<byte>, c: seq<byte>)
    requires a <= b && b <= c
    ensures a <= c
  {
  }

  /** Every running prefix of the header sections is a prefix of anything that begins with `Flatten(h)`. */
  lemma {:induction false} HeaderPrefixes(h: Header, whole: seq<byte>)
    requires Flatten(h) <= whole
    ensures h.typeByte <= whole
    ensures h.typeByte + h.timestamp <= whole
    ensures h.typeByte + h.timestamp + h.sender <= whole
    ensures h.typeByte + h.timestamp + h.sender + h.requester <= whole
    ensures h.typeByte + h.timestamp + h.sender + h.requester + h.recipient <= whole
    ensures h.typeByte + h.timestamp + h.sender + h.requester + h.recipient + h.vendor <= whole
    ensures h.typeByte + h.timestamp + h.sender + h.requester + h.recipient + h.vendor + h.amount <= whole
  {
    var p1 := h.typeByte;
    var p2 := p1 + h.timestamp;
    var p3 := p2 + h.sender;
    var p4 := p3 + h.requester;
    var p5 := p4 + h.recipient;
    var p6 := p5 + h.vendor;
    var p7 := p6 + h.amount;
    PrefixTrans(p7, Flatten(h), whole);
    PrefixTrans(p6, p7, whole);
    PrefixTrans(p5, p6, whole);
    PrefixTrans(p4, p5, whole);
    PrefixTrans(p3, p4, whole);
    PrefixTrans(p2, p3, whole);
    PrefixTrans(p1, p2, whole);
  }

  /** The first four header sections sit at their running offsets in anything that begins with `Flatten(h)`. */
  lemma {:induction false} FrontSlices(h: Header, whole: seq<byte>)
    requires Flatten(h) <= whole
    ensures
      var o1 := |h.typeByte|;
      var o2 := o1 + |h.timestamp|;
      var o3 := o2 + |h.sender|;
      var o4 := o3 + |h.requester|;
      && o4 <= |whole|
      && whole[..o1] == h.typeByte
      && whole[o1..o2] == h.timestamp
      && whole[o2..o3] == h.sender
      && whole[o3..o4] == h.requester
  {
    HeaderPrefixes(h, whole);
    var p1 := h.typeByte;
    var p2 := p1 + h.timestamp;
    var p3 := p2 + h.sender;
    SectionAt([], p1, whole);
    SectionAt(p1, h.timestamp, whole);
    SectionAt(p2, h.sender, whole);
    SectionAt(p3, h.requester, whole);
  }

  /** The last four header sections sit at their running offsets in anything that begins with `Flatten(h)`. */
  lemma {:induction false} BackSlices(h: Header, whole: seq<byte>)
    requires Flatten(h) <= whole
    ensures
      var o4 := |h.typeByte| + |h.timestamp| + |h.sender| + |h.requester|;
      var o5 := o4 + |h.recipient|;
      var a := AmountOffset(h);
      && |Flatten(h)| == a + |h.amount| + |h.fee|
      && whole[o4..o5] == h.recipient
      && whole[o5..a] == h.vendor
      && whole[a..a + |h.amount|] == h.amount
      && whole[a + |h.amount|..|Flatten(h)|] == h.fee
  {
    HeaderPrefixes(h, whole);
    var p4 := h.typeByte + h.timestamp + h.sender + h.requester;
    var p5 := p4 + h.recipient;
    var p6 := p5 + h.vendor;
    var p7 := p6 + h.amount;
    SectionAt(p4, h.recipient, whole);
    SectionAt(p5, h.vendor, whole);
    SectionAt(p6, h.amount, whole);
    SectionAt(p7, h.fee, whole);
  }

  /** Each header section sits at its running offset in anything that begins with `Flatten(h)`. */
  lemma {:induction false} HeaderSlices(h: Header, whole: seq<byte>)
    requires Flatten(h) <= whole
    ensures
      var o1 := |h.typeByte|;
      var o2 := o1 + |h.timestamp|;
      var o3 := o2 + |h.sender|;
      var o4 := o3 + |h.requester|;
      var o5 := o4 + |h.recipient|;
      var a := AmountOffset(h);
      && |Flatten(h)| == a + |h.amount| + |h.fee|
      && whole[..o1] == h.typeByte
      && whole[o1..o2] == h.timestamp
      && whole[o2..o3] == h.sender
      && whole[o3..o4] == h.requester
      && whole[o4..o5] == h.recipient
      && whole[o5..a] == h.vendor
      && whole[a..a + |h.amount|] == h.amount
      && whole[a + |h.amount|..|Flatten(h)|] == h.fee
  {
    FrontSlices(h, whole);
    BackSlices(h, whole);
  }

  /**
   * `r` holds, from offset 0, the type byte, the 4-byte timestamp, the sender
   * key, the requester key, the recipient, the 64-byte vendor field, the
   * 8-byte amount and the 8-byte fee of `h`, and ends with `sigs`.
   */
  predicate LaidOut(h: Header, sigs: seq<byte>, r: seq<byte>) {
    var o2 := ByteWidth + IntWidth;
    var o3 := o2 + |h.sender|;
    var o4 := o3 + |h.requester|;
    var o5 := o4 + |h.recipient|;
    var a := AmountOffset(h);
    && a == o5 + VendorFieldWidth
    && a + 2 * LongWidth + |sigs| <= |r|
    && r[..1] == h.typeByte
    && r[1..o2] == h.timestamp
    && r[o2..o3] == h.sender
    && r[o3..o4] == h.requester
    && r[o4..o5] == h.recipient
    && r[o5..a] == h.vendor
    && r[a..a + LongWidth] == h.amount
    && r[a + LongWidth..a + 2 * LongWidth] == h.fee
    && r[|r| - |sigs|..] == sigs
  }

  /** A header with the fixed widths, then any asset bytes, then `sigs`, is laid out section by section. */
  lemma {:induction false} Layout(h: Header, withAsset: seq<byte>, sigs: seq<byte>, r: seq<byte>)
    requires Flatten(h) <= withAsset && r == withAsset + sigs
    requires |h.typeByte| == ByteWidth && |h.timestamp| == IntWidth && |h.vendor| == VendorFieldWidth
    requires |h.amount| == LongWidth && |h.fee| == LongWidth
    ensures LaidOut(h, sigs, r)
  {
    PrefixTrans(Flatten(h), withAsset, r);
    HeaderSlices(h, r);
  }

  /** A successful encoding is a successful header and asset part followed by the signature sections. */
  lemma EncodeParts(env: Env, hook: TypeHook, st: TxState, skipSignature: bool, skipSecondSignature: bool)
    requires Encode(env, hook, st, skipSignature, skipSecondSignature).Success?
    ensures EncodeHeader(env, st).Success? && Body(env, hook, st).Success?
    ensures SignatureSuffix(st, skipSignature, skipSecondSignature).Success?
    ensures Flatten(EncodeHeader(env, st).value) <= Body(env, hook, st).value
    ensures Encode(env, hook, st, skipSignature, skipSecondSignature).value
      == Body(env, hook, st).value + SignatureSuffix(st, skipSignature, skipSecondSignature).value
  {
  }

  /** Encoding fails where the header and asset part fails, then where the signature sections fail. */
  lemma EncodeSplit(env: Env, hook: TypeHook, st: TxState, skipSignature: bool, skipSecondSignature: bool)
    ensures Body(env, hook, st).Failure? ==>
      Encode(env, hook, st, skipSignature, skipSecondSignature) == Failure(Body(env, hook, st).error)
    ensures Encode(env, hook, st, skipSignature, skipSecondSignature).Success? <==>
      Body(env, hook, st).Success? && SignatureSuffix(st, skipSignature, skipSecondSignature).Success?
    ensures Encode(env, hook, st, skipSignature, skipSecondSignature).Success? ==>
      Encode(env, hook, st, skipSignature, skipSecondSignature).value
        == Body(env, hook, st).value + SignatureSuffix(st, skipSignature, skipSecondSignature).value
  {
  }

  /** The header and asset part reads no signature field. */
  lemma BodyIgnoresSignatures(env: Env, hook: TypeHook, st: TxState, sig: Option<string>, sig2: Option<string>)
    ensures Body(env, hook, st.(signature := sig, signSignature := sig2)) == Body(env, hook, st)
  {
    assert EncodeHeader(env, st.(signature := sig, signSignature := sig2)) == EncodeHeader(env, st);
  }

  /**
   * Field order and widths: a successful encoding holds the header sections
   * in writing order at their fixed offsets, then the asset bytes, and last
   * the signature sections.
   */
  lemma {:induction false} FieldOrder(env: Env, hook: TypeHook, st: TxState, skipSignature: bool, skipSecondSignature: bool)
    requires Encode(env, hook, st, skipSignature, skipSecondSignature).Success?
    ensures EncodeHeader(env, st).Success?
    ensures SignatureSuffix(st, skipSignature, skipSecondSignature).Success?
    ensures LaidOut(EncodeHeader(env, st).value, SignatureSuffix(st, skipSignature, skipSecondSignature).value,
      Encode(env, hook, st, skipSignature, skipSecondSignature).value)
  {
    EncodeParts(env, hook, st, skipSignature, skipSecondSignature);
    HeaderContents(env, st);
    Layout(EncodeHeader(env, st).value, Body(env, hook, st).value,
      SignatureSuffix(st, skipSignature, skipSecondSignature).value,
      Encode(env, hook, st, skipSignature, skipSecondSignature).value);
  }

  /**
   * Signature sections are only ever a suffix: encoding with any flags gives
   * the both-skipped encoding followed by the included, set signatures, and
   * fails exactly when that encoding fails or an included signature is not hex.
   */
  lemma {:induction false} SignaturesOnlyAppend(env: Env, hook: TypeHook, st: TxState, skipSignature: bool, skipSecondSignature: bool)
    ensures SignMessage(env, hook, st).Failure? ==>
      Encode(env, hook, st, skipSignature, skipSecondSignature) == SignMessage(env, hook, st)
    ensures Encode(env, hook, st, skipSignature, skipSecondSignature).Success? <==>
      SignMessage(env, hook, st).Success? && SignatureSuffix(st, skipSignature, skipSecondSignature).Success?
    ensures Encode(env, hook, st, skipSignature, skipSecondSignature).Success? ==>
      Encode(env, hook, st, skipSignature, skipSecondSignature).value
        == SignMessage(env, hook, st).value + SignatureSuffix(st, skipSignature, skipSecondSignature).value
  {
    EncodeSplit(env, hook, st, skipSignature, skipSecondSignature);
    EncodeSplit(env, hook, st, true, true);
    assert SignatureSuffix(st, true, true) == Success([]);
    if Body(env, hook, st).Success? {
      assert Body(env, hook, st).value + [] == Body(env, hook, st).value;
    }
  }

  /**
   * Setting a requester key changes no other header section and moves the
   * amount and fee by exactly the key's decoded length.
   */
  lemma RequesterShift(env: Env, st: TxState, key: string)
    requires !Truthy(st.requesterPublicKey)
    requires key != "" && IsHexText(key)
    requires EncodeHeader(env, st).Success?
    ensures
      var h := EncodeHeader(env, st).value;
      var withKey := EncodeHeader(env, st.(requesterPublicKey := Some(key)));
      && withKey == Success(h.(requester := Unhexlify(key).value))
      && AmountOffset(withKey.value) == AmountOffset(h) + |key| / 2
  {
  }

  /**
   * Without a requester key or asset bytes, and with no recipient or one that
   * decodes to 21 bytes, the both-skipped encoding is
   * 1 + 4 + |sender key| + 21 + 64 + 8 + 8 bytes long.
   */
  lemma {:induction false} UnsignedLength(env: Env, hook: TypeHook, st: TxState)
    requires !Truthy(st.requesterPublicKey)
    requires Truthy(st.recipientId) ==>
      env.b58decodeCheck(st.recipientId.value).Some? &&
      |env.b58decodeCheck(st.recipientId.value).value| == RecipientWidth
    requires hook.AssetWriter? && forall b :: hook.write(b) == Success([])
    requires HeaderEncodable(env, st)
    ensures SignMessage(env, hook, st).Success?
    ensures |SignMessage(env, hook, st).value|
      == ByteWidth + IntWidth + |st.senderPublicKey| / 2 + RecipientWidth + VendorFieldWidth + 2 * LongWidth
  {
    var h := EncodeHeader(env, st).value;
    HeaderContents(env, st);
    assert Body(env, hook, st) == Success(Flatten(h) + []);
    EncodeSplit(env, hook, st, true, true);
    assert SignatureSuffix(st, true, true) == Success([]);
  }

  /** The scenario of a 33-byte compressed sender key with nothing optional: 139 bytes. */
  lemma UnsignedLengthExample(env: Env, hook: TypeHook, senderPublicKey: string)
    requires hook.AssetWriter? && forall b :: hook.write(b) == Success([])
    requires IsHexText(senderPublicKey) && |senderPublicKey| == 66
    ensures
      var st := TxState(0, 10000000, senderPublicKey, None, None, None, 100000000, Some(10000000), None, None);
      SignMessage(env, hook, st).Success? && |SignMessage(env, hook, st).value| == 139
  {
    var st := TxState(0, 10000000, senderPublicKey, None, None, None, 100000000, Some(10000000), None, None);
    assert Pow256(IntWidth) == 0x1_0000_0000;
    assert Pow256(LongWidth) == 0x1_0000_0000_0000_0000;
    assert HeaderEncodable(env, st);
    UnsignedLength(env, hook, st);
  }

  /** Neither signature field is read by the both-skipped encoding that `_sign` and `_get_hash()` hash. */
  lemma {:induction false} SignaturesInvisibleToSignMessage(env: Env, hook: TypeHook, st: TxState, sig: Option<string>, sig2: Option<string>)
    ensures SignMessage(env, hook, st.(signature := sig, signSignature := sig2)) == SignMessage(env, hook, st)
  {
    var st' := st.(signature := sig, signSignature := sig2);
    BodyIgnoresSignatures(env, hook, st, sig, sig2);
    EncodeSplit(env, hook, st, true, true);
    EncodeSplit(env, hook, st', true, true);
    assert SignatureSuffix(st, true, true) == Success([]);
    assert SignatureSuffix(st', true, true) == Success([]);
  }

  /**
   * The id is the hash of `_to_bytes(False, False)`, which includes the
   * signatures: setting a first signature lengthens the id's input by the
   * signature's decoded length.
   */
  lemma {:induction false} IdCoversSignature(env: Env, hook: TypeHook, st: TxState, sig: string)
    requires !Truthy(st.signature)
    requires sig != "" && IsHexText(sig)
    requires Encode(env, hook, st, false, false).Success?
    ensures
      var signed := Encode(env, hook, st.(signature := Some(sig)), false, false);
      && signed.Success?
      && |signed.value| == |Encode(env, hook, st, false, false).value| + |sig| / 2
      && signed.value != Encode(env, hook, st, false, false).value
  {
    var st' := st.(signature := Some(sig));
    BodyIgnoresSignatures(env, hook, st, Some(sig), st.signSignature);
    assert st' == st.(signature := Some(sig), signSignature := st.signSignature);
    EncodeSplit(env, hook, st, false, false);
    EncodeSplit(env, hook, st', false, false);
    var second := SignatureSection(false, st.signSignature);
    assert SignatureSuffix(st, false, false).value == second.value;
    assert SignatureSuffix(st', false, false).value == KeySection(sig).value + second.value;
  }

  /**
   * The id's input includes the second signature too: setting one lengthens
   * the `_to_bytes(False, False)` bytes by its decoded length.
   */
  lemma {:induction false} IdCoversSecondSignature(env: Env, hook: TypeHook, st: TxState, sig2: string)
    requires !Truthy(st.signSignature)
    requires sig2 != "" && IsHexText(sig2)
    requires Encode(env, hook, st, false, false).Success?
    ensures
      var signed := Encode(env, hook, st.(signSignature := Some(sig2)), false, false);
      && signed.Success?
      && |signed.value| == |Encode(env, hook, st, false, false).value| + |sig2| / 2
      && signed.value != Encode(env, hook, st, false, false).value
  {
    var st' := st.(signSignature := Some(sig2));
    BodyIgnoresSignatures(env, hook, st, st.signature, Some(sig2));
    assert st' == st.(signature := st.signature, signSignature := Some(sig2));
    EncodeSplit(env, hook, st, false, false);
    EncodeSplit(env, hook, st', false, false);
    var first := SignatureSection(false, st.signature);
    assert SignatureSuffix(st, false, false).value == first.value + [];
    assert SignatureSuffix(st', false, false).value == first.value + KeySection(sig2).value;
  }

  /**
   * What `_second_sign` signs is what `_sign` signs followed by the first
   * signature's bytes, if a first signature is set; with none set, the two
   * sign the very same bytes.
   */
  lemma {:induction false} SecondSignCoversFirst(env: Env, hook: TypeHook, st: TxState)
    requires SecondSignMessage(env, hook, st).Success?
    ensures SignMessage(env, hook, st).Success?
    ensures SecondSignMessage(env, hook, st).value ==
      SignMessage(env, hook, st).value
      + (if Truthy(st.signature) then Unhexlify(st.signature.value).value else [])
  {
    SignaturesOnlyAppend(env, hook, st, false, true);
    var first := SignatureSection(false, st.signature).value;
    assert SignatureSuffix(st, false, true).value == first + [];
    assert first + [] == first;
  }

  /** The base class cannot encode: `_handle_transaction_type` raises NotImplementedError. */
  lemma BaseClassNeverEncodes(env: Env, st: TxState, skipSignature: bool, skipSecondSignature: bool)
    ensures Encode(env, Abstract, st, skipSignature, skipSecondSignature).Failure?
    ensures HeaderEncodable(env, st) ==>
      Encode(env, Abstract, st, skipSignature, skipSecondSignature) == Failure(NotImplemented)
  {
  }

  // Verification checks other bytes than were signed, as written.

  /**
   * Once `_sign` has stored a signature, `verify` hashes the signed bytes
   * followed by that signature's own bytes: not the bytes that were signed.
   */
  lemma {:induction false} VerifyChecksOtherBytes(env: Env, hook: TypeHook, st: TxState, sig: string)
    requires SignMessage(env, hook, st).Success?
    requires sig != "" && IsHexText(sig)
    ensures
      var verified := VerifyMessage(env, hook, st.(signature := Some(sig)));
      verified.Success? && verified.value != SignMessage(env, hook, st).value
  {
    var st' := st.(signature := Some(sig));
    SignaturesInvisibleToSignMessage(env, hook, st, Some(sig), st.signSignature);
    assert st' == st.(signature := Some(sig), signSignature := st.signSignature);
    SignaturesOnlyAppend(env, hook, st', false, true);
    assert SignatureSuffix(st', false, true) == Success(KeySection(sig).value + []);
    SecondSignCoversFirst(env, hook, st');
  }

  /**
   * Once `_second_sign` has stored a second signature, `second_verify`
   * hashes the bytes it signed followed by the second signature's own bytes.
   */
  lemma {:induction false} SecondVerifyChecksOtherBytes(env: Env, hook: TypeHook, st: TxState, sig2: string)
    requires SecondSignMessage(env, hook, st).Success?
    requires sig2 != "" && IsHexText(sig2)
    ensures
      var verified := SecondVerifyMessage(env, hook, st.(signSignature := Some(sig2)));
      verified.Success? && verified.value != SecondSignMessage(env, hook, st).value
  {
    var st' := st.(signSignature := Some(sig2));
    BodyIgnoresSignatures(env, hook, st, st.signature, Some(sig2));
    assert st' == st.(signature := st.signature, signSignature := Some(sig2));
    EncodeSplit(env, hook, st, false, true);
    EncodeSplit(env, hook, st', false, false);
    var first := SignatureSection(false, st.signature);
    assert SignatureSuffix(st, false, true).value == first.value + [];
    assert SignatureSuffix(st', false, false).value == first.value + KeySection(sig2).value;
  }

  /** The corrected `verify` input is exactly what `_sign` signed, whatever signature it stored. */
  lemma IntendedVerifyMatchesSign(env: Env, hook: TypeHook, st: TxState, sig: string)
    ensures IntendedVerifyMessage(env, hook, st.(signature := Some(sig))) == SignMessage(env, hook, st)
  {
    SignaturesInvisibleToSignMessage(env, hook, st, Some(sig), st.signSignature);
  }

  /** The corrected `second_verify` input is exactly what `_second_sign` signed. */
  lemma {:induction false} IntendedSecondVerifyMatchesSecondSign(env: Env, hook: TypeHook, st: TxState, sig2: string)
    ensures IntendedSecondVerifyMessage(env, hook, st.(signSignature := Some(sig2))) == SecondSignMessage(env, hook, st)
  {
    var st' := st.(signSignature := Some(sig2));
    BodyIgnoresSignatures(env, hook, st, st.signature, Some(sig2));
    assert st' == st.(signature := st.signature, signSignature := Some(sig2));
    EncodeSplit(env, hook, st, false, true);
    EncodeSplit(env, hook, st', false, true);
    assert SignatureSuffix(st', false, true) == SignatureSuffix(st, false, true);
  }
}
