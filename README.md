# sage_party: the Sage Pay Server transaction, in Dafny

This project models `SageParty::Transaction`. It is the record a Ruby
application keeps for one payment made through the Sage Pay Server gateway.
The model covers what the class does with it:

- parses the gateway's `Key=Value` reply to a registration into a new
  transaction, with `id` and `vendor_name` set from the request;
- looks up a stored transaction by vendor id, guarded by the gateway's
  transaction id;
- merges the second-stage notification into the transaction in place,
  keeping its original security key;
- checks the notification's MD5 signature over seventeen properties in a
  fixed order;
- answers the gateway with a `Status=…\r\nRedirectURL=…[\r\nStatusDetail=…]`
  acknowledgement chosen by six ordered rules.

Modules:

- `Optional`: `Option`, and Ruby's interpolation of nil as "".
- `RubyString`: the Ruby string operations the class relies on.
  - `split("\r\n")`, which drops trailing empty pieces.
  - `split("=", 2)`.
  - `upcase`, ASCII only.
- `Fields`: the property table. Each property has its own underscored name
  and the gateway's name. Populating a transaction from a field mapping is
  modelled here.
- `ResponseBody`: the reply format.
  - The parsing loop of `register_tx` is a method proved against the
    function `Parsed`.
  - Writing a reply (`Render`) is its partner: a round-trip lemma reads it
    back.
- `Signature`: `generate_md5` and `signature_ok?`, with MD5 as a parameter.
- `Acknowledgement`: the decision rules of `response` and `format_response`.
  The reply is read back through `ResponseBody`.
- `SageParty`: the class `Transaction`. Its mutable state is the property
  map and the not-found flag. `register_tx`, `find` and
  `missing_transaction` are static methods. The module also holds lemmas
  about `merge!` and `register_tx`.

The application's hooks are parameters:

- the raw reply string of the registration request, in place of `raw_register`;
- the stored-transaction lookup `get`, a function from vendor id to an optional transaction;
- `notification_url`, a string;
- MD5, a function `hexMd5` from a string to its lower-case hex digest.

## Model

| member | source | states |
|---|---|---|
| Optional.Interpolate | lib/sage_party.rb:109 | the definition of Ruby's `"#{x}"` on an optional string: the string itself, and "" for nil |
| RubyString.Upcase | lib/sage_party.rb:109 | same length; each character is upper-cased, and characters that are not letters are unchanged |
| RubyString.UpcaseHasNoLower | lib/sage_party.rb:109 | an upper-cased string holds no lower-case ASCII letter |
| RubyString.Pieces | lib/sage_party.rb:35 | the CRLF-separated pieces of a string, empty ones included: at least one, the first a prefix of the string, none holding CRLF |
| RubyString.DropTrailingEmpty | lib/sage_party.rb:35 | `split` keeps a prefix of the pieces, drops only empty trailing pieces, and ends on a non-empty one |
| RubyString.SplitCrlf | lib/sage_party.rb:35 | `body.split("\r\n")`: no line holds CRLF, the last line is not empty, and the first line is where the string starts |
| RubyString.JoinPieces | lib/sage_party.rb:35 | joining the CRLF-separated pieces with CRLF gives back the string |
| RubyString.SplitJoin | lib/sage_party.rb:35 | splitting CRLF-joined lines gives back exactly those lines, when no line holds CRLF and the last is non-empty |
| RubyString.SplitFirst | lib/sage_party.rb:36 | `split("=", 2)`: "" gives no pieces, a line without the separator gives itself, otherwise key and rest around the first separator |
| RubyString.SplitFirstAtKey | lib/sage_party.rb:36 | a key without the separator comes back as the key, and the value whole |
| Fields.OnlySecurityKeyNamedSo | lib/sage_party.rb:19-26 | no property other than the security key goes by the name `SecurityKey` |
| Fields.OnlyIdentityNamedSo | lib/sage_party.rb:19-26 | no property other than `id` and `vendor_name` goes by those names |
| Fields.NoEqualsInExternalName | lib/sage_party.rb:19-25 | no gateway name holds `=` |
| Fields.PropsByFields | lib/sage_party.rb:74-76 | two sets of property values are equal exactly when every property reads the same |
| Fields.Populated | lib/sage_party.rb:98-99 | every property the mapping names takes the given value, nil included; every other property keeps its value |
| Fields.UnknownKeysIgnored | lib/sage_party.rb:19-26 | a key that names no property does not change the result |
| ResponseBody.Entry | lib/sage_party.rb:36-37 | a line with `=` gives the key before its first `=` and the rest; a line without `=` maps to itself; the empty line gives none |
| ResponseBody.Parsed | lib/sage_party.rb:34-38 | the hash of a reply body: every key comes, with its value, from a line of the body, and every line that gives an entry has its key in the hash |
| ResponseBody.ParseResponse | lib/sage_party.rb:34-38 | the loop builds exactly the hash `Parsed` defines |
| ResponseBody.CollectKeysFromLines | lib/sage_party.rb:35-38 | every key of the hash comes from a line that carries it with the hash's value, and no later line carries that key |
| ResponseBody.CollectHasLineKeys | lib/sage_party.rb:35-38 | every line that gives an entry puts its key in the hash |
| ResponseBody.CollectLastWins | lib/sage_party.rb:37 | the last line carrying a key decides its value |
| ResponseBody.SplitRender | lib/sage_party.rb:35 | the lines of a written reply are exactly its entries' lines |
| ResponseBody.CollectDistinct | lib/sage_party.rb:35-38 | lines with distinct keys give a hash of exactly their entries |
| ResponseBody.ParseRender | lib/sage_party.rb:35-38 | round trip: parsing a written reply with distinct keys gives every key its value and no other key |
| ResponseBody.ValueKeptWhole | lib/sage_party.rb:36 | a value holding `=`, such as the NextURL query string, is kept whole |
| Signature.GenerateMd5 | lib/sage_party.rb:108-110 | `generate_md5`: the upper-cased hex MD5 of the seventeen properties in the order of line 109, nil as "": as long as the digest, no lower-case letter, every other character of the digest kept |
| Signature.SignatureOk | lib/sage_party.rb:93-95 | `signature_ok?` compares `generate_md5` with `vps_signature`: when it holds, the signature is present, as long as the digest and upper-case |
| Signature.UnsetSignatureFails | lib/sage_party.rb:93-95 | without `vps_signature` the check fails |
| Signature.LowerCaseSignatureFails | lib/sage_party.rb:109 | a signature holding a lower-case letter never matches the upper-cased digest |
| Signature.SignatureReadsSignedFieldsOnly | lib/sage_party.rb:108-110 | the check depends only on the seventeen signed properties and the signature; VPSProtocol, StatusDetail, NextURL and id do not matter |
| Signature.SigningStringOfRegisteredReply | lib/sage_party.rb:109 | for a registered transaction, the digested string is vps_tx_id, status, vendor_name and security_key in that order; nil properties add nothing |
| Acknowledgement.StatusWords | lib/sage_party.rb:113 | the status words are OK, INVALID and ERROR |
| Acknowledgement.Decide | lib/sage_party.rb:63-70 | OK exactly when found, signed and the status is one of OK, NOTAUTHED, ABORT and REJECTED; ERROR exactly when found, signed and the status is ERROR; a detail exactly when not OK |
| Acknowledgement.RulePriority | lib/sage_party.rb:63-67 | each of the first four rules wins over all later ones, with its own detail |
| Acknowledgement.UnknownStatusEchoed | lib/sage_party.rb:68 | any other status, nil and "" included, is INVALID with the status echoed |
| Acknowledgement.FormatResponse | lib/sage_party.rb:112-116 | `format_response`: the reply is the `Key=Value` rendering, one line each, of Status, RedirectURL and, when the detail is not nil, StatusDetail |
| Acknowledgement.ReadBack | lib/sage_party.rb:112-116 | read back, the reply gives the status word, the URL, and the detail exactly when there is one |
| Acknowledgement.Respond | lib/sage_party.rb:63-70 | `response` on the facts it consults: a missing transaction gets INVALID "Transaction not found"; read back, the reply says OK exactly when found, signed and the status is accepted, and has a detail exactly when it does not say OK |
| Acknowledgement.StatusScenarios | spec/sage_transaction_spec.rb:204-238 | CUSTARD, "" and nil are echoed as invalid; AUTHENTICATED and REGISTERED are unexpected; the four accepted statuses give OK |
| SageParty.Transaction.constructor | lib/sage_party.rb:98-101 | the properties are populated from the mapping, and the not-found flag is kept |
| SageParty.Transaction.Exists | lib/sage_party.rb:79-81 | the definition of `exists?`: true exactly when the not-found flag is not set |
| SageParty.Transaction.SignatureOk | lib/sage_party.rb:93-95 | `signature_ok?` on the transaction's properties: when it holds, `vps_signature` is set, as long as the digest and upper-case |
| SageParty.Transaction.Equals | lib/sage_party.rb:74-76 | true exactly when every property is equal and `exists?` agrees |
| SageParty.MergedAsWritten | lib/sage_party.rb:85-90 | `merge!` as written, the data less its `SecurityKey` entry populated over the properties: an entry under `SecurityKey` does not replace the security key (unless `security_key` is also given); every other property the data mentions takes the incoming value, nil included; one it does not mention is unchanged |
| SageParty.Merged | lib/sage_party.rb:85-90 | `merge!` as intended: the security key is never replaced, under either name; every other property the data mentions takes the incoming value, nil included; one it does not mention is unchanged |
| SageParty.Transaction.Merge | lib/sage_party.rb:85-90 | the properties become `Merged` of the old properties and the data; the not-found flag is unchanged; it answers the same instance |
| SageParty.Transaction.Response | lib/sage_party.rb:63-70 | a missing transaction gets INVALID "Transaction not found"; read back, the reply says OK exactly when it exists, is signed and has an accepted status, and carries a detail line exactly when it does not say OK |
| SageParty.Transaction.RegisterTx | lib/sage_party.rb:32-40 | a new, existing transaction populated from the parsed reply, with `id` from VendorTxCode and `vendor_name` from Vendor |
| SageParty.Transaction.MissingTransaction | lib/sage_party.rb:56-58 | a new transaction that does not exist and has no properties |
| SageParty.Transaction.Find | lib/sage_party.rb:44-48 | the stored transaction itself when `get` finds it and its vps_tx_id matches, otherwise a new non-existent one |
| SageParty.MergeTakesSnakeCaseSecurityKey | lib/sage_party.rb:86-88 | as written, an entry under the underscored name `security_key` does replace the key |
| SageParty.MergeExample | spec/sage_transaction_spec.rb:139-160 | card type replaced, gift aid added, status unchanged, security key kept, for the merge as written and the intended one alike |
| SageParty.MergesAgree | lib/sage_party.rb:86-88 | the merge as written and the intended merge agree on every data without a `security_key` entry |
| SageParty.SignatureExample | spec/sage_transaction_spec.rb:241-254 | a registered transaction merged with a `vps_signature` passes the check exactly when the signature is the upper-cased digest of vps_tx_id, status, vendor_name and security_key, under either merge |
| SageParty.SignatureMerged | lib/sage_party.rb:85-95 | merging a lone `vps_signature` sets it and keeps every signed property, so the check then compares it with the upper-cased digest of the old signing string |
| SageParty.MergedSignatureUsesStoredKey | lib/sage_party.rb:86-88 | under the intended merge (`Merged`), a security key sent with the merged data, under either name, cannot change the signature check's outcome |
| SageParty.RegisteredIdentity | lib/sage_party.rb:39 | `id` and `vendor_name` come from the request, whatever the reply holds |
| SageParty.RegisteredFromLine | lib/sage_party.rb:35-39 | a reply line `Name=value` under a property's gateway name puts the whole value in that property, unless the name is repeated later or the underscored name is used |
| SageParty.RegisteredFromReply | lib/sage_party.rb:39 | a parsed entry under a property's gateway name becomes that property |

## Left out

- HTTP transport: `raw_register` (lib/sage_party.rb:17) and the connector setup (lib/sage_party.rb:5) are I/O. The reply body is an input string.
- The URL table and the `SAGE_PAY_SERVER` constant (lib/sage_party.rb:12-15) are deployment configuration.
- `authorise_tx`, `raw_authorise` and `sage_pay_server` are not part of this model. The tests call them, but lib/sage_party.rb does not define them.
- MD5 is a parameter, not computed. So the test's concrete signature `DBCB54EB…` cannot be checked.
- `get` and `notification_url` (lib/sage_party.rb:51-53, 103-105) are application hooks that raise until overridden. They are parameters.
- `populate_properties` belongs to the PartyResource library, which is not part of this model. The model takes it to behave as follows.
  - Each property is read under its underscored name if present, else under the gateway's name.
  - A key that is present overwrites the property, even with nil.
  - A key that is absent keeps the old value.
- `with_indifferent_access` and `underscore`: keys are strings, and the property table is written out.
- A property set to nil is absent from the property map, so it reads as nil.
- `params[:not_found]` is a symbol lookup. The constructor takes its truth value as a separate flag. A parsed reply has only string keys, so `register_tx` always builds an existing transaction.
- The empty interior line of a reply gives the key nil in Ruby. No property is read under nil, so that entry is dropped.
- RubyString.Upcase: ASCII letters only. Ruby's Unicode case mapping is not modelled. Hex digests are ASCII.
- SageParty.Transaction.Find: `get` is a pure function of the vendor id. The source's `get` may have effects or raise.
- Aliasing: `merge!` changes one transaction's fields. Only its property map changes and other transactions are not touched, which the frame ``modifies this`props`` states.
- SageParty.Transaction.Merge: it uses the corrected `Merged`, so an entry under `security_key` does not reach the security key. The code as written is `SageParty.MergedAsWritten`; see "## Findings".
- Repeated declarations (lib/sage_party.rb:19-26): `VPSTxId` and `SecurityKey` each appear twice in the word list, and `vendor_name` is declared by the list (as `VendorName`) and again by `property :id, :vendor_name`. The property table holds one entry per property. The repeated list entries declare the same mapping twice, so they change nothing. For `vendor_name` the table follows both declarations: it is read under its own name and, from line 20, under `VendorName`. Whether PartyResource keeps that first mapping after the second declaration is not visible here; if it does not, a `VendorName` key would be ignored. `register_tx` sets `vendor_name` under its own name, so it is not affected.

## Findings

| source | as written | input that shows it | evidently intended | confidence | as-written member | corrected member |
|---|---|---|---|---|---|---|
| lib/sage_party.rb:86-88 | `merge!` deletes only the entry under the gateway name `SecurityKey`, and properties are also read under their underscored names | `merge!('security_key' => k)` replaces the stored security key with k | the stored security key is never replaced by merged data, under either name | medium, not executed; it rests on the populating behaviour under "## Left out" | SageParty.MergeTakesSnakeCaseSecurityKey | SageParty.Merged |
