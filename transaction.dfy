/**
 * The `Transaction` object of bpl_lib/transactions/Transaction.py: its fields,
 * the step-by-step writing of its canonical bytes into a `Buffer`, and the
 * two signing steps, each of which stores one signature field.
 */
module Transactions {
  import opened Wrappers
  import opened ByteBuffer
  import opened Hex
  import opened TransactionBytes

  class Transaction {
    /** The collaborators the source imports (hashing, signing, keys, base58). */
    const env: Env
    /** The concrete type's `_handle_transaction_type`, with the asset it encodes. */
    const hook: TypeHook

    const txType: int
    const timestamp: int
    const senderPublicKey: string
    var requesterPublicKey: Option<string>
    var recipientId: Option<string>
    var vendorField: Option<string>
    var amount: int
    var fee: Option<int>
    var signature: Option<string>
    var signSignature: Option<string>

    /** The fields the encoding reads. */
    function State(): TxState
      reads this
    {
      TxState(txType, timestamp, senderPublicKey, requesterPublicKey, recipientId,
              vendorField, amount, fee, signature, signSignature)
    }

    /**
     * `__init__(type, secret)`: the timestamp comes from the clock, here the
     * parameter `now`; the sender key is derived from the secret.
     */
    constructor (env: Env, hook: TypeHook, txType: int, secret: string, now: int)
      ensures this.env == env && this.hook == hook
      ensures State() == TxState(txType, now, env.publicKey(secret), None, None, None, 0, None, None, None)
    {
      this.env := env;
      this.hook := hook;
      this.txType := txType;
      this.timestamp := now;
      this.senderPublicKey := env.publicKey(secret);
      requesterPublicKey := None;
      recipientId := None;
      vendorField := None;
      amount := 0;
      fee := None;
      signature := None;
      signSignature := None;
    }

    /** `_handle_transaction_type`: appends the asset bytes, or raises. */
    method HandleTransactionType(buffer: Buffer) returns (r: Outcome<Error>)
      modifies buffer
      ensures var spec := WithAsset(hook, old(buffer.bytes));
        && (r.Pass? <==> spec.Success?)
        && (r.Fail? ==> r.error == spec.error)
        && buffer.bytes == if r.Pass? then spec.value else old(buffer.bytes)
    {
      match hook
      case Abstract =>
        return Fail(NotImplemented);
      case AssetWriter(write) =>
        var asset := write(buffer.bytes);
        if asset.Failure? {
          return Fail(asset.error);
        }
        buffer.WriteBytes(asset.value);
        return Pass;
    }

    /** `_handle_signature`: appends each signature that is included and set. */
    method HandleSignature(buffer: Buffer, skipSignature: bool, skipSecondSignature: bool)
      returns (r: Outcome<Error>)
      modifies buffer
      ensures var spec := SignatureSuffix(State(), skipSignature, skipSecondSignature);
        && (r.Pass? <==> spec.Success?)
        && (r.Fail? ==> r.error == MalformedHex)
        && (r.Pass? ==> buffer.bytes == old(buffer.bytes) + spec.value)
    {
      if !skipSignature && Truthy(signature) {
        var first := Unhexlify(signature.value);
        if first.None? {
          return Fail(MalformedHex);
        }
        buffer.WriteBytes(first.value);
      }
      if !skipSecondSignature && Truthy(signSignature) {
        var second := Unhexlify(signSignature.value);
        if second.None? {
          return Fail(MalformedHex);
        }
        buffer.WriteBytes(second.value);
      }
      return Pass;
    }

    /** Lines 85-109 of `_to_bytes`: a fresh buffer holding the fields before the asset, in order. */
    method WriteHeader() returns (buffer: Buffer, r: Outcome<Error>)
      ensures fresh(buffer)
      ensures var spec := EncodeHeader(env, State());
        && (r.Pass? <==> spec.Success?)
        && (r.Fail? ==> r.error == spec.error)
        && (r.Pass? ==> buffer.bytes == Flatten(spec.value))
    {
      var st := State();
      buffer := new Buffer();
      var ok := buffer.WriteByte(st.txType);
      if !ok {
        r := Fail(ValueOutOfRange);
        return;
      }
      assert buffer.bytes == LittleEndian(st.txType, ByteWidth);
      ok := buffer.WriteInt(st.timestamp);
      if !ok {
        r := Fail(ValueOutOfRange);
        return;
      }
      var sender := KeySection(st.senderPublicKey);
      if sender.Failure? {
        r := Fail(sender.error);
        return;
      }
      buffer.WriteBytes(sender.value);
      var requester := RequesterSection(st.requesterPublicKey);
      if requester.Failure? {
        r := Fail(requester.error);
        return;
      }
      buffer.WriteBytes(requester.value);
      var recipient := RecipientSection(env, st.recipientId);
      if recipient.Failure? {
        r := Fail(recipient.error);
        return;
      }
      buffer.WriteBytes(recipient.value);
      var vendor := VendorSection(st.vendorField);
      if vendor.Failure? {
        r := Fail(vendor.error);
        return;
      }
      buffer.WriteBytes(vendor.value);
      ok := buffer.WriteLong(st.amount);
      if !ok {
        r := Fail(ValueOutOfRange);
        return;
      }
      if st.fee.None? {
        r := Fail(MissingFee);
        return;
      }
      ok := buffer.WriteLong(st.fee.value);
      if !ok {
        r := Fail(ValueOutOfRange);
        return;
      }
      ghost var header := Header(LittleEndian(st.txType, ByteWidth), LittleEndian(st.timestamp, IntWidth),
        sender.value, requester.value, recipient.value, vendor.value,
        LittleEndian(st.amount, LongWidth), LittleEndian(st.fee.value, LongWidth));
      assert buffer.bytes == Flatten(header);
      assert EncodeHeader(env, st) == Success(header);
      r := Pass;
    }

    /** `_to_bytes(skip_signature, skip_second_signature)`, written field by field into a fresh buffer. */
    method ToBytes(skipSignature: bool, skipSecondSignature: bool) returns (r: Result<seq<byte>, Error>)
      ensures r == Encode(env, hook, State(), skipSignature, skipSecondSignature)
    {
      ghost var st := State();
      var buffer, header := WriteHeader();
      if header.Fail? {
        return Failure(header.error);
      }
      ghost var h := EncodeHeader(env, st).value;
      assert buffer.bytes == Flatten(h);
      var asset := HandleTransactionType(buffer);
      if asset.Fail? {
        return Failure(asset.error);
      }
      assert buffer.bytes == WithAsset(hook, Flatten(h)).value;
      var signatures := HandleSignature(buffer, skipSignature, skipSecondSignature);
      if signatures.Fail? {
        return Failure(signatures.error);
      }
      return Success(buffer.bytes);
    }

    /** `_get_hash(skip_signature, skip_second_signature)`: sha256 of `_to_bytes` with those flags. */
    method GetHash(skipSignature: bool, skipSecondSignature: bool) returns (r: Result<seq<byte>, Error>)
      ensures var bytes := Encode(env, hook, State(), skipSignature, skipSecondSignature);
        && (r.Success? <==> bytes.Success?)
        && (r.Failure? ==> r.error == bytes.error)
        && (r.Success? ==> r.value == env.sha256(bytes.value))
    {
      var bytes := ToBytes(skipSignature, skipSecondSignature);
      if bytes.Failure? {
        return Failure(bytes.error);
      }
      return Success(env.sha256(bytes.value));
    }

    /**
     * `_get_id`: the hex digest of the hash of `_to_bytes(False, False)`, the
     * encoding that includes whichever signatures are set.
     */
    method GetId() returns (r: Result<string, Error>)
      ensures var bytes := Encode(env, hook, State(), false, false);
        && (r.Success? <==> bytes.Success?)
        && (r.Failure? ==> r.error == bytes.error)
        && (r.Success? ==> Unhexlify(r.value) == Some(env.sha256(bytes.value)))
        && (r.Success? ==> LowerHex(r.value) == r.value)
    {
      var bytes := ToBytes(false, false);
      if bytes.Failure? {
        return Failure(bytes.error);
      }
      var digest := env.sha256(bytes.value);
      UnhexlifyHexlify(digest);
      HexlifyUnhexlify(Hexlify(digest));
      return Success(Hexlify(digest));
    }

    /**
     * `_sign(secret)`: signs the hash of the both-skipped encoding and stores
     * the signature; nothing else changes. If the encoding raises, nothing
     * is stored.
     */
    method Sign(secret: string) returns (r: Outcome<Error>)
      modifies this`signature
      ensures var message := SignMessage(env, hook, old(State()));
        && (r.Pass? <==> message.Success?)
        && (r.Fail? ==> r.error == message.error)
        && State() == old(State()).(signature :=
             if r.Pass? then Some(env.sign(secret, env.sha256(message.value))) else old(signature))
    {
      var hash := GetHash(true, true);
      if hash.Failure? {
        return Fail(hash.error);
      }
      signature := Some(env.sign(secret, hash.value));
      return Pass;
    }

    /**
     * `_second_sign(secret)`: signs the hash of the encoding that includes the
     * first signature (if set) but not the second, and stores the second
     * signature; nothing else changes.
     */
    method SecondSign(secret: string) returns (r: Outcome<Error>)
      modifies this`signSignature
      ensures var message := SecondSignMessage(env, hook, old(State()));
        && (r.Pass? <==> message.Success?)
        && (r.Fail? ==> r.error == message.error)
        && State() == old(State()).(signSignature :=
             if r.Pass? then Some(env.sign(secret, env.sha256(message.value))) else old(signSignature))
    {
      var hash := GetHash(false, true);
      if hash.Failure? {
        return Fail(hash.error);
      }
      signSignature := Some(env.sign(secret, hash.value));
      return Pass;
    }
  }
}
