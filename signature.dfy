/**
 * The integrity check on a gateway notification: an MD5 digest over
 * seventeen of the transaction's properties, in a fixed order, compared
 * with the signature the gateway sent. MD5 itself is a parameter
 * (`hexMd5`, the lower-case hex digest of a string).
 */
module Signature {
  import opened Optional
  import opened RubyString
  import opened Fields

  /** Property f interpolated into a string: nil gives "". */
  function Text(props: Props, f: Field): string
  {
    Interpolate(Get(props, f))
  }

  /** The properties the digest leaves out; the signature itself is compared, not digested. */
  predicate Unsigned(f: Field)
  {
    f == VpsProtocol || f == StatusDetail || f == NextUrl || f == VpsSignature || f == Id
  }

  /**
   * The string `generate_md5` digests: the seventeen signed properties in
   * the source's order. It is written as three runs only to keep the
   * proofs about it small; the runs mean nothing in the source.
   */
  function SigningString(props: Props): string
  {
    TransactionRun(props) + CheckRun(props) + PayerRun(props)
  }

  /** vps_tx_id, vendor_tx_code, status, tx_auth_no, vendor_name, avscv2. */
  function TransactionRun(props: Props): string
  {
    Text(props, VpsTxId) + Text(props, VendorTxCode) + Text(props, Status)
    + Text(props, TxAuthNo) + Text(props, VendorName) + Text(props, Avscv2)
  }

  /** security_key, address_result, post_code_result, cv2_result, gift_aid, three_d_secure_status. */
  function CheckRun(props: Props): string
  {
    Text(props, SecurityKey) + Text(props, AddressResult) + Text(props, PostCodeResult)
    + Text(props, Cv2Result) + Text(props, GiftAid) + Text(props, ThreeDSecureStatus)
  }

  /** cavv, address_status, payer_status, card_type, last4_digits. */
  function PayerRun(props: Props): string
  {
    Text(props, Cavv) + Text(props, AddressStatus) + Text(props, PayerStatus)
    + Text(props, CardType) + Text(props, Last4Digits)
  }

  /**
   * `generate_md5`: the hex digest of the signing string, upper-cased. It is
   * as long as the digest, holds no lower-case letter, and keeps every
   * character of the digest that is not one (its decimal digits).
   */
  function GenerateMd5(props: Props, hexMd5: string -> string): (d: string)
    ensures |d| == |hexMd5(SigningString(props))|
    ensures forall i :: 0 <= i < |d| ==> !('a' <= d[i] <= 'z')
    ensures forall i :: 0 <= i < |d| && !('a' <= hexMd5(SigningString(props))[i] <= 'z') ==>
      d[i] == hexMd5(SigningString(props))[i]
  {
    Upcase(hexMd5(SigningString(props)))
  }

  /**
   * `signature_ok?`: the digest equals the signature sent; nil never equals
   * a string. So a passing signature is present, as long as the digest and
   * upper-case.
   */
  function SignatureOk(props: Props, hexMd5: string -> string): (ok: bool)
    ensures ok ==> VpsSignature in props
    ensures ok ==> |props[VpsSignature]| == |hexMd5(SigningString(props))|
    ensures ok ==> forall i :: 0 <= i < |props[VpsSignature]| ==> !('a' <= props[VpsSignature][i] <= 'z')
  {
    Get(props, VpsSignature) == Some(GenerateMd5(props, hexMd5))
  }

  /** Without a signature the check fails, whatever the other properties hold. */
  lemma UnsetSignatureFails(props: Props, hexMd5: string -> string)
    requires VpsSignature !in props
    ensures !SignatureOk(props, hexMd5)
  {
  }

  /** A signature with a lower-case letter never matches the upper-cased digest. */
  lemma LowerCaseSignatureFails(props: Props, hexMd5: string -> string, i: int)
    requires VpsSignature in props && 0 <= i < |props[VpsSignature]|
    requires 'a' <= props[VpsSignature][i] <= 'z'
    ensures !SignatureOk(props, hexMd5)
  {
    if SignatureOk(props, hexMd5) {
      UpcaseHasNoLower(hexMd5(SigningString(props)), i);
    }
  }

  /**
   * The check reads nothing but the seventeen signed properties and the
   * signature: VPSProtocol, StatusDetail, NextURL and id do not matter.
   */
  lemma SignatureReadsSignedFieldsOnly(p: Props, q: Props, hexMd5: string -> string)
    requires forall f :: !Unsigned(f) ==> Get(p, f) == Get(q, f)
    requires Get(p, VpsSignature) == Get(q, VpsSignature)
    ensures SignatureOk(p, hexMd5) == SignatureOk(q, hexMd5)
  {
    SameRuns(p, q);
  }

  /** Each run of the signing string reads only signed properties. */
  lemma SameRuns(p: Props, q: Props)
    requires forall f :: !Unsigned(f) ==> Get(p, f) == Get(q, f)
    ensures TransactionRun(p) == TransactionRun(q)
    ensures CheckRun(p) == CheckRun(q)
    ensures PayerRun(p) == PayerRun(q)
  {
    SameTransactionRun(p, q);
    SameCheckRun(p, q);
  }

  // SameRuns is split per run only to keep each proof small.

  lemma SameTransactionRun(p: Props, q: Props)
    requires forall f :: !Unsigned(f) ==> Get(p, f) == Get(q, f)
    ensures TransactionRun(p) == TransactionRun(q)
  {
  }

  lemma SameCheckRun(p: Props, q: Props)
    requires forall f :: !Unsigned(f) ==> Get(p, f) == Get(q, f)
    ensures CheckRun(p) == CheckRun(q)
  {
  }

  /**
   * The reply of a registration, as a transaction: nil properties add
   * nothing and the set ones appear in the fixed order, whatever else is set.
   */
  lemma SigningStringOfRegisteredReply(protocol: string, status: string, detail: string, txId: string,
                                       key: string, url: string, id: string, vendor: string)
    ensures SigningString(Registered(protocol, status, detail, txId, key, url, id, vendor))
      == txId + status + vendor + key
  {
    RegisteredTransactionRun(protocol, status, detail, txId, key, url, id, vendor);
    RegisteredCheckRun(protocol, status, detail, txId, key, url, id, vendor);
    RegisteredPayerRun(protocol, status, detail, txId, key, url, id, vendor);
  }

  /** The properties of a transaction built from a registration reply. */
  function Registered(protocol: string, status: string, detail: string, txId: string,
                      key: string, url: string, id: string, vendor: string): Props
  {
    map[VpsProtocol := protocol, Status := status, StatusDetail := detail,
      VpsTxId := txId, SecurityKey := key, NextUrl := url, Id := id, VendorName := vendor]
  }

  lemma RegisteredTransactionRun(protocol: string, status: string, detail: string, txId: string,
                                 key: string, url: string, id: string, vendor: string)
    ensures TransactionRun(Registered(protocol, status, detail, txId, key, url, id, vendor)) == txId + status + vendor
  {
  }

  lemma RegisteredCheckRun(protocol: string, status: string, detail: string, txId: string,
                           key: string, url: string, id: string, vendor: string)
    ensures CheckRun(Registered(protocol, status, detail, txId, key, url, id, vendor)) == key
  {
  }

  lemma RegisteredPayerRun(protocol: string, status: string, detail: string, txId: string,
                           key: string, url: string, id: string, vendor: string)
    ensures PayerRun(Registered(protocol, status, detail, txId, key, url, id, vendor)) == ""
  {
  }
}
