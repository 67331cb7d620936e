# Canonical transaction bytes and signing (BPL-python `Transaction`)

This project models the core of `bpl_lib/transactions/Transaction.py`. It covers the canonical byte
encoding of a transaction (`_to_bytes` with `_handle_signature` and the abstract
`_handle_transaction_type`), the hashes derived from it (`_get_hash`, `_get_id`) and the
two signing steps `_sign` and `_second_sign`. Each signing step stores one signature field of the object.
It also records which bytes `verify` and `second_verify` hash.

Files:

- `wrappers.dfy`: `Option`, `Result` (usable with `:-`) and `Outcome`. Python exceptions become `Failure`/`Fail`.
- `buffer.dfy`: the byte writer `Buffer` as a class over `seq<byte>`, little-endian integers and
  their round trips.
- `hex.dfy`: `unhexlify` / `hexlify`, with both round trips.
- `layout.dfy` (module `TransactionBytes`): the encoding as pure functions over a snapshot
  `TxState` of the transaction's fields, with the layout, signature, identifier and verification
  lemmas.
- `transaction.dfy` (module `Transactions`): the class `Transaction`. It writes its bytes step by
  step into a `Buffer`, each method proved equal to the pure encoding. `Sign` and `SecondSign` each
  change exactly one field, as their `modifies` frames say.

Assumptions about code this model does not include:

- `bpl_lib/helpers/Util` is not part of this model. `Buffer.write_byte`, `write_int` and `write_long`
  are taken to append a 1-, 4- and 8-byte unsigned little-endian integer. Like `struct.pack`, they
  raise, writing nothing, when the value does not fit (a fee of `None` raises too).
- `unhexlify` is taken to decode pairs of hex digits of either case and fail on anything else.
  `hexlify` is taken to write lower-case digits.
- `sha256`, `Signature(secret).sign`, `Keys(secret).get_public_key()` and `base58.b58decode_check`
  are uninterpreted. They are function-valued fields of `TransactionBytes.Env`. The address decoder
  may fail, and the length of what it returns is not assumed.
- `_handle_transaction_type` is a `TypeHook`. `Abstract` is the base class, which raises
  `NotImplementedError`. `AssetWriter(write)` is a concrete type: `write` computes the asset bytes
  from the buffer written so far, and they are appended.
- The clock `get_time()` becomes the constructor parameter `now`.
- Python truthiness of optional strings (`None` and `""` are both false) is `Truthy`.

## Behaviour a reader might not expect

The model follows the code as written, including these points:

- `_get_id` hashes `_to_bytes(False, False)`, which includes every signature already set, so the
  id's input changes when a signature is set. `IdCoversSignature` and `IdCoversSecondSignature`
  prove this for either signature.
- `_sign` hashes with both signatures skipped (the default flags of `_get_hash`).
- With `skip_signature` false and no signature set, `_handle_signature` silently writes nothing
  rather than raising.
- The recipient section is whatever `b58decode_check` returns. Its 21-byte length is not checked.
  Only an absent recipient is guaranteed 21 (zero) bytes, so the offset of the amount is fixed only
  when the decoder returns 21 bytes.
- `verify` and `second_verify` discard the verification result and return `None`.

## Model

| member | source | states |
|---|---|---|
| `ByteBuffer.LittleEndian` | bpl_lib/transactions/Transaction.py:88 | a fixed-width integer write produces exactly `width` bytes |
| `ByteBuffer.FromLittleEndian` | bpl_lib/transactions/Transaction.py:108-109 | a `width`-byte little-endian field reads back as a value below 256^width |
| `ByteBuffer.LittleEndianRoundTrip` | bpl_lib/transactions/Transaction.py:87-88 | reading a written integer that fits gives the integer back |
| `ByteBuffer.FromLittleEndianRoundTrip` | bpl_lib/transactions/Transaction.py:108-109 | writing a read integer gives the same bytes back: the field encoding is a bijection |
| `ByteBuffer.Zeros` | bpl_lib/transactions/Transaction.py:97 | `bytes(n)` is n bytes, all zero |
| `ByteBuffer.Buffer.WriteByte` | bpl_lib/transactions/Transaction.py:87 | appends the 1-byte value if it fits, otherwise fails and leaves the buffer as it was |
| `ByteBuffer.Buffer.WriteInt` | bpl_lib/transactions/Transaction.py:88 | appends the 4-byte little-endian value if it fits, otherwise fails and changes nothing |
| `ByteBuffer.Buffer.WriteLong` | bpl_lib/transactions/Transaction.py:108-109 | appends the 8-byte little-endian value if it fits, otherwise fails and changes nothing |
| `ByteBuffer.Buffer.WriteBytes` | bpl_lib/transactions/Transaction.py:90 | appends the bytes and nothing else |
| `ByteBuffer.Buffer.constructor` | bpl_lib/transactions/Transaction.py:85 | a new buffer is empty |
| `Hex.Unhexlify` | bpl_lib/transactions/Transaction.py:90 | decoding succeeds iff the text has even length and only hex digits, giving half as many bytes |
| `Hex.Hexlify` | bpl_lib/transactions/Transaction.py:43 | the hex text has two characters per byte |
| `Hex.UnhexlifyHexlify` | bpl_lib/transactions/Transaction.py:43 | decoding the hex text of bytes gives the bytes back |
| `Hex.HexlifyUnhexlify` | bpl_lib/transactions/Transaction.py:90 | re-encoding decoded hex text gives the text back in lower case |
| `TransactionBytes.UIntSection` | bpl_lib/transactions/Transaction.py:87-88 | an integer section succeeds iff the value fits; it has the fixed width and reads back as the value |
| `TransactionBytes.KeySection` | bpl_lib/transactions/Transaction.py:90 | a key section succeeds iff the key is hex text, and is its decoded bytes, re-encoding to the key |
| `TransactionBytes.RequesterSection` | bpl_lib/transactions/Transaction.py:92-93 | succeeds iff an unset (or empty) key or a hex key; an unset key writes nothing; a set key writes half as many bytes as hex digits, which hexlify back to the key in lower case; the only error is MalformedHex |
| `TransactionBytes.RecipientSection` | bpl_lib/transactions/Transaction.py:95-98 | an absent or empty recipient always gives 21 zero bytes; a set one succeeds iff the address decodes, and is then exactly the decoded address; the only error is InvalidAddress |
| `TransactionBytes.VendorSection` | bpl_lib/transactions/Transaction.py:101-105 | the vendor section is always 64 bytes: the decoded field then zeros, or 64 zeros when absent; a malformed or over-64-byte field fails |
| `TransactionBytes.FeeSection` | bpl_lib/transactions/Transaction.py:109 | succeeds iff the fee is set and fits 8 bytes, and then reads back as the fee; an unset fee raises MissingFee, an oversized one ValueOutOfRange |
| `TransactionBytes.EncodeHeader` | bpl_lib/transactions/Transaction.py:85-109 | the pre-asset sections are written iff every field is encodable (type, timestamp, amount and fee fit; keys and vendor field are hex; the vendor field decodes to at most 64 bytes; the address decodes; the fee is set) |
| `TransactionBytes.HeaderContents` | bpl_lib/transactions/Transaction.py:85-109 | in a written header the type, timestamp, amount and fee read back as the fields' values at widths 1, 4, 8 and 8; the sender and a set requester key are their decoded bytes, an unset requester is empty; the recipient is the decoded address or 21 zeros; the vendor field is 64 bytes |
| `TransactionBytes.WithAsset` | bpl_lib/transactions/Transaction.py:137-145 | the type hook only appends to the buffer; the base class always raises NotImplementedError |
| `TransactionBytes.SignatureSection` | bpl_lib/transactions/Transaction.py:129-133 | succeeds iff the signature is excluded (skipped or unset) or is hex; anything written means it was included; an included signature is half as many bytes as hex digits, which hexlify back to it in lower case |
| `TransactionBytes.SignatureSuffix` | bpl_lib/transactions/Transaction.py:117-135 | succeeds iff every included signature is hex, failing with MalformedHex otherwise; the suffix is the first included signature's bytes then the second's, each hexlifying back to its signature, and nothing for an excluded one |
| `TransactionBytes.Body` | bpl_lib/transactions/Transaction.py:85-112 | the bytes before the signature sections exist only for encodable fields and a concrete type, and begin with the flattened header |
| `TransactionBytes.Encode` | bpl_lib/transactions/Transaction.py:76-115 | `_to_bytes` succeeds only for encodable fields and a concrete type, and its bytes begin with the header and asset bytes |
| `TransactionBytes.SignMessage` | bpl_lib/transactions/Transaction.py:45-54 | the bytes `_sign` hashes (default flags, line 154) are exactly the header and asset bytes, with no signature |
| `TransactionBytes.SecondSignMessage` | bpl_lib/transactions/Transaction.py:164 | the bytes `_second_sign` hashes, `_to_bytes(False, True)`, exist iff `_sign`'s do and a set first signature is hex, and extend `_sign`'s bytes |
| `TransactionBytes.VerifyMessage` | bpl_lib/transactions/Transaction.py:175 | the bytes `verify` hashes, `_to_bytes(False, True)`, are exactly those `_second_sign` signs |
| `TransactionBytes.SecondVerifyMessage` | bpl_lib/transactions/Transaction.py:185 | the bytes `second_verify` hashes, `_to_bytes(False, False)`, exist iff `_second_sign`'s do and a set second signature is hex, and extend them |
| `TransactionBytes.SecondSignatureExtends` | bpl_lib/transactions/Transaction.py:129-133 | including the second signature only extends the signature sections, and fails only if that signature is not hex |
| `TransactionBytes.EncodeSplit` | bpl_lib/transactions/Transaction.py:111-115 | `_to_bytes` fails with the header or asset error first, then with a signature error; its bytes are the header and asset bytes followed by the signature sections |
| `TransactionBytes.BodyIgnoresSignatures` | bpl_lib/transactions/Transaction.py:85-112 | the bytes before `_handle_signature` do not depend on either signature field |
| `TransactionBytes.HeaderSlices` | bpl_lib/transactions/Transaction.py:85-109 | each header section sits at its running offset in the flattened header |
| `TransactionBytes.Layout` | bpl_lib/transactions/Transaction.py:85-115 | a header with the fixed widths, any asset bytes and then the signature sections are laid out section by section (`LaidOut`) |
| `TransactionBytes.FieldOrder` | bpl_lib/transactions/Transaction.py:85-115 | a successful encoding is type, timestamp, sender, requester, recipient, 64-byte vendor, 8-byte amount, 8-byte fee at their offsets, and ends with the signature sections |
| `TransactionBytes.SignaturesOnlyAppend` | bpl_lib/transactions/Transaction.py:113-135 | any-flag encoding = both-skipped encoding + included signatures; it fails iff that fails or a signature is malformed, with the same error |
| `TransactionBytes.RequesterShift` | bpl_lib/transactions/Transaction.py:92-109 | setting a requester key changes no other header section and shifts amount and fee by exactly its decoded length |
| `TransactionBytes.UnsignedLength` | bpl_lib/transactions/Transaction.py:85-112 | with every field encodable, no requester and no asset bytes, and no recipient or one decoding to 21 bytes, the unsigned encoding succeeds and is 1 + 4 + sender + 21 + 64 + 8 + 8 bytes |
| `TransactionBytes.UnsignedLengthExample` | bpl_lib/transactions/Transaction.py:85-112 | the 33-byte-key scenario encodes successfully to 139 bytes |
| `TransactionBytes.SignaturesInvisibleToSignMessage` | bpl_lib/transactions/Transaction.py:45-54 | the default `_get_hash()` input does not depend on either signature field |
| `TransactionBytes.IdCoversSignature` | bpl_lib/transactions/Transaction.py:36-43 | the id's input includes the first signature: setting one lengthens it by its decoded length |
| `TransactionBytes.IdCoversSecondSignature` | bpl_lib/transactions/Transaction.py:36-43 | the id's input includes the second signature as well: setting one lengthens it by its decoded length |
| `TransactionBytes.SecondSignCoversFirst` | bpl_lib/transactions/Transaction.py:157-165 | what `_second_sign` signs is what `_sign` signs plus the first signature's bytes, or the same bytes when no first signature is set |
| `TransactionBytes.BaseClassNeverEncodes` | bpl_lib/transactions/Transaction.py:137-145 | the base class never produces an encoding; with valid fields it raises NotImplementedError |
| `TransactionBytes.VerifyChecksOtherBytes` | bpl_lib/transactions/Transaction.py:167-175 | as written, `verify` hashes bytes different from those `_sign` signed |
| `TransactionBytes.SecondVerifyChecksOtherBytes` | bpl_lib/transactions/Transaction.py:177-185 | as written, `second_verify` hashes bytes different from those `_second_sign` signed |
| `TransactionBytes.IntendedVerifyMatchesSign` | bpl_lib/transactions/Transaction.py:147-175 | corrected: the bytes verified for the first signature are exactly those `_sign` signed |
| `TransactionBytes.IntendedSecondVerifyMatchesSecondSign` | bpl_lib/transactions/Transaction.py:157-185 | corrected: the bytes verified for the second signature are exactly those `_second_sign` signed |
| `Transactions.Transaction.constructor` | bpl_lib/transactions/Transaction.py:11-34 | a new transaction has the given type, the clock's timestamp, the derived sender key, amount 0 and every optional field unset |
| `Transactions.Transaction.HandleTransactionType` | bpl_lib/transactions/Transaction.py:137-145 | appends the hook's asset bytes, or raises and leaves the buffer unchanged |
| `Transactions.Transaction.HandleSignature` | bpl_lib/transactions/Transaction.py:117-135 | appends exactly the signature suffix, or raises MalformedHex |
| `Transactions.Transaction.WriteHeader` | bpl_lib/transactions/Transaction.py:85-109 | the buffer written field by field equals the pure header, with the same first error |
| `Transactions.Transaction.ToBytes` | bpl_lib/transactions/Transaction.py:76-115 | the bytes written step by step are exactly the canonical encoding, or the same error |
| `Transactions.Transaction.GetHash` | bpl_lib/transactions/Transaction.py:45-54 | the hash is sha256 of the encoding with the given flags, or that encoding's error |
| `Transactions.Transaction.GetId` | bpl_lib/transactions/Transaction.py:36-43 | the id is lower-case hex that decodes to sha256 of `_to_bytes(False, False)` |
| `Transactions.Transaction.Sign` | bpl_lib/transactions/Transaction.py:147-155 | stores the signature over the both-skipped hash; no other field changes; if encoding raises, nothing changes |
| `Transactions.Transaction.SecondSign` | bpl_lib/transactions/Transaction.py:157-165 | stores the second signature over the hash with only the first signature included; no other field changes |

## Findings

| source | as written | input that shows it | evidently intended | confidence | as-written member | corrected member |
|---|---|---|---|---|---|---|
| bpl_lib/transactions/Transaction.py:175 | `verify` hashes `_to_bytes(False, True)`, which includes the first signature it is checking | any encodable transaction after `_sign` stored a non-empty hex signature | hash `_to_bytes(True, True)`, the bytes `_sign` signed | medium, not executed | `TransactionBytes.VerifyChecksOtherBytes` | `TransactionBytes.IntendedVerifyMatchesSign` |
| bpl_lib/transactions/Transaction.py:185 | `second_verify` hashes `_to_bytes(False, False)`, which includes the second signature it is checking | any encodable transaction after `_second_sign` stored a non-empty hex signature | hash `_to_bytes(False, True)`, the bytes `_second_sign` signed | medium, not executed | `TransactionBytes.SecondVerifyChecksOtherBytes` | `TransactionBytes.IntendedSecondVerifyMatchesSecondSign` |

Both verification methods also discard the primitive's result, so neither mismatch shows in this
code's return values.

## Left out

- The call to `Signature.verify` in `verify` and `second_verify`, and its discarded result.
  Only the bytes they hash are modelled: `VerifyMessage` and `SecondVerifyMessage`.
- The cryptographic primitives, key derivation and base58 decoding are uninterpreted.
  No property of sha256 or ECDSA is assumed.
- `to_dict` (lines 56-74) is a plain projection of the fields. Its key is spelled `venderField`.
- The `_id` field is set to `None` in `__init__` and never assigned in this file. The `_asset`
  dictionary is read only by concrete types and `to_dict`. The type hook captures it.
- Concrete transaction types (their asset layouts and the constructors that set fee, amount,
  recipient, vendor field and requester key) are not part of this model. Those fields are
  assignable, but no operation here sets them.
- `int(self._type)` on a non-integer type value is not modelled; the type is an integer.
- A secret given as bytes instead of a string is not modelled.
- Transactions.Transaction.HandleSignature: says nothing about the buffer after a failure. When the second
  signature is malformed, the first may already be written. The exception discards the buffer, so
  `ToBytes` never returns it.
