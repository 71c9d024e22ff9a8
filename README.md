# Securitized asset contract, modelled in Dafny

A model of `SecuritizedAssetContract`, a Hyperledger Fabric chaincode contract
that keeps securitized assets in the world state under their identifiers. Each
asset is stored as the JSON text of the envelope `{ value }`. The contract has
five operations:

- `securitizedAssetExists`: an asset exists when `getState` returns bytes that
  are present and non-empty.
- `createSecuritizedAsset`: throws `The securitized asset <id> already exists`
  when the asset exists; otherwise it issues one `putState` of the envelope.
- `updateSecuritizedAsset`: throws `The securitized asset <id> does not exist`
  when the asset is absent; otherwise it issues one `putState` of the new envelope.
- `deleteSecuritizedAsset`: throws the same error when the asset is absent;
  otherwise it issues one `deleteState`.
- `readSecuritizedAsset`: throws the same error when the asset is absent;
  otherwise it walks the key's history cursor and returns an array of the
  parsed envelope of every entry that has a value.

Layout:

- `wrappers.dfy`, module `Wrappers`: `Option`, `Result` and `Outcome`. A thrown
  error is a `Failure`/`Fail` value.
- `envelope.dfy`, module `Envelope`: the envelope `Asset`. `Encode` models
  `JSON.stringify({ value })` with its escapes for quotes, backslashes and
  control characters. `Decode` models `JSON.parse` of an envelope-shaped text:
  whitespace between tokens and every string escape of section 7 of RFC 8259 are
  accepted, except `\u` escapes of surrogate code units. The module proves the round trip `Decode(Encode(a)) == Some(a)`.
- `ledger.dfy`, module `Ledger`: the transaction context's `stub`, a class
  `Stub` with three fields: the world state (a map from key to bytes), the
  committed history of each key (a sequence of entries, each with or without
  bytes), and the log of writes the transaction issued. `HistoryIterator` is
  the cursor that `getHistoryForKey` returns, with `next()` and `close()`.
- `contract.dfy`, module `SecuritizedAssetContract`: the five operations as
  methods over a `Stub`. `DecodeHistory` and `ReadResult` specify what the read
  loop returns, and lemmas state what a read gives back.

Behaviour of the code worth noting:

- Read returns the whole history as an array, not the current value. The
  repository's own test expects a bare object (test/securitized-asset-contract.js:72-74),
  but the code builds an array (lib/securitized-asset-contract.js:31-44).
- Read parses every history entry that has a value. It does not skip
  deletions. An entry whose bytes are empty or otherwise do not parse makes
  the read throw (`ReadUnparsableEntry`).
- A write does not append to the history the stub returns. History is what the
  peer has committed; `putState` and `deleteState` only change the world state
  as the transaction's writes leave it, and the log of its writes.

Error messages are given by `SecuritizedAssetContract.Message`.

## Model

| member | source | states |
|---|---|---|
| `SecuritizedAssetContract.SecuritizedAssetExists` | lib/securitized-asset-contract.js:11-14 | the asset exists exactly when the state holds bytes for it and they are non-empty |
| `SecuritizedAssetContract.Message` | lib/securitized-asset-contract.js:19 | the thrown text is "The securitized asset ", then the identifier, then " already exists" (line 19) or " does not exist" (lines 29, 50 and 60); the suffix tells the two errors apart |
| `SecuritizedAssetContract.TestStateExistence` | test/securitized-asset-contract.js:41-53 | with 1001 and 1002 stored, 1001 exists and 1003, never stored, does not |
| `SecuritizedAssetContract.CreateSecuritizedAsset` | lib/securitized-asset-contract.js:16-24 | an existing asset gives `AlreadyExists(id)` with no write and the state unchanged; otherwise exactly one `putState(id, Encode({value}))` is logged, the key maps to that encoding, the asset exists afterwards, and no other key changes |
| `Envelope.EncodeTestValue` | test/securitized-asset-contract.js:59-62 | creating 1003 with the test's value stores `{"value":"securitized asset 1003 value"}` |
| `SecuritizedAssetContract.UpdateSecuritizedAsset` | lib/securitized-asset-contract.js:47-55 | an absent asset gives `DoesNotExist(id)` with no write and the state unchanged; otherwise exactly one `putState(id, Encode({value: newValue}))` replaces its state, the asset still exists, and no other key changes |
| `SecuritizedAssetContract.DeleteSecuritizedAsset` | lib/securitized-asset-contract.js:57-63 | an absent asset gives `DoesNotExist(id)` with no write and the state unchanged; otherwise exactly one `deleteState(id)` is logged, the asset no longer exists, and no other key changes |
| `SecuritizedAssetContract.ReadSecuritizedAsset` | lib/securitized-asset-contract.js:26-45 | the loop over the history cursor returns `ReadResult`: `DoesNotExist(id)` for an absent asset, else the parsed envelopes of the entries with a value in cursor order, or the syntax error of the first entry that does not parse; it has no write frame, so state, history and write log are unchanged |
| `SecuritizedAssetContract.ReadAbsent` | lib/securitized-asset-contract.js:27-30 | an asset with no or empty stored bytes cannot be read, whatever its history |
| `SecuritizedAssetContract.DecodeHistoryFailurePersists` | lib/securitized-asset-contract.js:34-41 | once an entry fails to parse, the read throws that error whatever entries follow |
| `SecuritizedAssetContract.DecodeHistorySucceedsIff` | lib/securitized-asset-contract.js:34-41 | the history walk succeeds if and only if every entry with a value holds bytes that parse |
| `SecuritizedAssetContract.DecodeHistoryErrors` | lib/securitized-asset-contract.js:37 | the only error the history walk throws is the parse error |
| `SecuritizedAssetContract.ReadUnparsableEntry` | lib/securitized-asset-contract.js:35-38 | one entry with bytes that do not parse, such as empty bytes, makes the read throw a syntax error |
| `SecuritizedAssetContract.DecodeHistoryLength` | lib/securitized-asset-contract.js:31-44 | the read returns at most one envelope per history entry |
| `SecuritizedAssetContract.DecodeEncodedHistory` | lib/securitized-asset-contract.js:31-44 | reading a history whose values the contract wrote returns exactly the envelopes written, in cursor order, skipping the entries with no value |
| `SecuritizedAssetContract.ReadAfterCreation` | lib/securitized-asset-contract.js:31-44 | an asset whose history holds only its creating write reads as a one-element array holding that envelope |
| `Envelope.RoundTrip` | lib/securitized-asset-contract.js:21-22 | parsing the JSON text of `{ value }` gives back `{ value }` |
| `Envelope.EncodeInjective` | lib/securitized-asset-contract.js:21-22 | different envelopes are stored as different bytes |
| `Envelope.ParseEscaped` | lib/securitized-asset-contract.js:37 | the body of a string literal as `JSON.stringify` escapes it parses back to the string, stopping at the closing quote |
| `Envelope.ParseEscapedChar` | lib/securitized-asset-contract.js:37 | each character's escape parses back to that character |
| `Envelope.ShortEscapeInverse` | lib/securitized-asset-contract.js:37 | each two-character escape written for a quote, backslash, backspace, tab, newline, form feed or carriage return parses back to that character |
| `Envelope.ParseUnicodeEscape` | lib/securitized-asset-contract.js:37 | the `\u00XX` escape written for any other control character parses back to it |
| `Envelope.DecodeMemberValueOf` | lib/securitized-asset-contract.js:37 | the quoted, escaped value followed by the closing brace parses to the envelope holding that value |
| `Envelope.EscapeChar` | lib/securitized-asset-contract.js:22 | a character is copied unchanged exactly when it is not a quote, a backslash or a control character; otherwise it is written as an escape starting with a backslash |
| `Envelope.EscapePlain` | lib/securitized-asset-contract.js:22 | a string with no quote, backslash or control character is written unchanged |
| `Envelope.EncodePlain` | lib/securitized-asset-contract.js:21-22 | such a value is stored as `{"value":"<value>"}` |
| `Envelope.EmptyDoesNotDecode` | lib/securitized-asset-contract.js:37 | empty bytes are not valid JSON |
| `Ledger.Stub.GetState` | lib/securitized-asset-contract.js:12 | returns the stored bytes of the key, or nothing for a key never written |
| `Ledger.Stub.PutState` | lib/securitized-asset-contract.js:23 | maps the key to the bytes and appends one `Put` to the write log |
| `Ledger.Stub.DeleteState` | lib/securitized-asset-contract.js:62 | removes the key and appends one `Delete` to the write log |
| `Ledger.Stub.GetHistoryForKey` | lib/securitized-asset-contract.js:31 | a fresh cursor at the start of the key's committed history |
| `Ledger.HistoryIterator.Next` | lib/securitized-asset-contract.js:33 | yields the next entry and advances, or reports `done` at the end |
| `Ledger.HistoryIterator.Close` | lib/securitized-asset-contract.js:42 | marks the cursor closed |

## Left out

- The `Contract` base class of `fabric-contract-api` and its dispatch of transactions to methods (lib/securitized-asset-contract.js:7, 9). `index.js` only re-exports the class.
- The Fabric peer behind `ctx.stub` is a foreign library. The model has no transaction commit, so writes never reach the history. It also does not model whether a read observes an earlier write of the same transaction, or a failing stub call (every stub operation succeeds).
- `async`/`await`: every operation is a sequential method. Races between the existence check and the write are concurrency outside the code.
- The `console.info` logging inside the read loop (lib/securitized-asset-contract.js:36).
- Buffers and UTF-8: bytes are modelled as the characters of the JSON text.
- `Envelope.Decode`: `JSON.parse` accepts any JSON text, and read would push any parsed value. The model parses only an object with the one member `"value"`, written with that exact key spelling and holding a string; any other text is a syntax error. `\u` escapes of surrogate code units are rejected, because a Dafny `char` is a Unicode scalar value.
- `Envelope.Encode`: `JSON.stringify`'s escaping of lone surrogates is not modelled (a Dafny string cannot hold one).
- `SecuritizedAssetContract.ReadSecuritizedAsset`: when `JSON.parse` throws, the source leaves the cursor unclosed, and the model likewise returns before `Close`. The contract does not state the cursor's closed state, because the cursor is local to the read.
- History entry timestamps, transaction identifiers and deletion flags: the code never inspects them.
- The exact text of the `SyntaxError` that `JSON.parse` throws.
- `Ledger.HistoryIterator.Next`: it follows the ECMAScript iterator protocol, where `done` is reported only after the last entry. An iterator that reported `done` together with the last entry would make the loop at lib/securitized-asset-contract.js:34 skip that entry; the model does not cover such an iterator.
