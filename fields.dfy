/**
 * The transaction's properties: each has a snake_case name and the name
 * the Sage Pay gateway uses for it on the wire, and populating a
 * transaction from a field mapping reads each property from whichever of
 * its two names the mapping holds.
 */
module Fields {
  import opened Optional

  datatype Field =
    | VpsProtocol | StatusDetail | VpsTxId | SecurityKey | NextUrl
    | VendorTxCode | Status | TxAuthNo | VendorName | Avscv2
    | AddressResult | PostCodeResult | Cv2Result | GiftAid | Cavv
    | AddressStatus | PayerStatus | CardType | Last4Digits | VpsSignature
    | ThreeDSecureStatus | Id

  /** The gateway's name for a property (`:from`); `id` has none of its own. */
  function ExternalName(f: Field): string
  {
    match f
    case VpsProtocol => "VPSProtocol"
    case StatusDetail => "StatusDetail"
    case VpsTxId => "VPSTxId"
    case SecurityKey => "SecurityKey"
    case NextUrl => "NextURL"
    case VendorTxCode => "VendorTxCode"
    case Status => "Status"
    case TxAuthNo => "TxAuthNo"
    case VendorName => "VendorName"
    case Avscv2 => "AVSCV2"
    case AddressResult => "AddressResult"
    case PostCodeResult => "PostCodeResult"
    case Cv2Result => "CV2Result"
    case GiftAid => "GiftAid"
    case Cavv => "CAVV"
    case AddressStatus => "AddressStatus"
    case PayerStatus => "PayerStatus"
    case CardType => "CardType"
    case Last4Digits => "Last4Digits"
    case VpsSignature => "VPSSignature"
    case ThreeDSecureStatus => "3DSecureStatus"
    case Id => "id"
  }

  /** The property's own (underscored) name. */
  function InternalName(f: Field): string
  {
    match f
    case VpsProtocol => "vps_protocol"
    case StatusDetail => "status_detail"
    case VpsTxId => "vps_tx_id"
    case SecurityKey => "security_key"
    case NextUrl => "next_url"
    case VendorTxCode => "vendor_tx_code"
    case Status => "status"
    case TxAuthNo => "tx_auth_no"
    case VendorName => "vendor_name"
    case Avscv2 => "avscv2"
    case AddressResult => "address_result"
    case PostCodeResult => "post_code_result"
    case Cv2Result => "cv2_result"
    case GiftAid => "gift_aid"
    case Cavv => "cavv"
    case AddressStatus => "address_status"
    case PayerStatus => "payer_status"
    case CardType => "card_type"
    case Last4Digits => "last4_digits"
    case VpsSignature => "vps_signature"
    case ThreeDSecureStatus => "three_d_secure_status"
    case Id => "id"
  }

  /** Only the security key goes by the gateway name `SecurityKey`. */
  lemma OnlySecurityKeyNamedSo(f: Field)
    requires f != SecurityKey
    ensures ExternalName(f) != "SecurityKey" && InternalName(f) != "SecurityKey"
    ensures ExternalName(f) != "security_key" && InternalName(f) != "security_key"
  {
  }

  /** Only `id` and `vendor_name` go by the names `id` and `vendor_name`. */
  lemma OnlyIdentityNamedSo(f: Field)
    requires f != Id && f != VendorName
    ensures ExternalName(f) != "id" && ExternalName(f) != "vendor_name"
    ensures InternalName(f) != "id" && InternalName(f) != "vendor_name"
  {
  }

  /** No gateway name holds the `=` that separates a key from its value on the wire. */
  lemma NoEqualsInExternalName(f: Field)
    ensures '=' !in ExternalName(f)
  {
    if InFirstHalf(f) {
      NoEqualsInFirstHalf(f);
    } else {
      NoEqualsInSecondHalf(f);
    }
  }

  // The table is checked for `=` in two halves only to keep each proof
  // small; the halves mean nothing in the source.

  /** The first eleven properties of the table. */
  predicate InFirstHalf(f: Field)
  {
    f == VpsProtocol || f == StatusDetail || f == VpsTxId || f == SecurityKey || f == NextUrl
    || f == VendorTxCode || f == Status || f == TxAuthNo || f == VendorName || f == Avscv2
    || f == AddressResult
  }

  lemma NoEqualsInFirstHalf(f: Field)
    requires InFirstHalf(f)
    ensures '=' !in ExternalName(f)
  {
  }

  lemma NoEqualsInSecondHalf(f: Field)
    requires !InFirstHalf(f)
    ensures '=' !in ExternalName(f)
  {
  }

  /** Every property. */
  function AllFields(): set<Field>
  {
    {VpsProtocol, StatusDetail, VpsTxId, SecurityKey, NextUrl,
     VendorTxCode, Status, TxAuthNo, VendorName, Avscv2,
     AddressResult, PostCodeResult, Cv2Result, GiftAid, Cavv,
     AddressStatus, PayerStatus, CardType, Last4Digits, VpsSignature,
     ThreeDSecureStatus, Id}
  }

  lemma AllFieldsComplete()
    ensures forall f :: f in AllFields()
  {
    forall f ensures f in AllFields() {
      match f
      case VpsProtocol =>
      case StatusDetail =>
      case VpsTxId =>
      case SecurityKey =>
      case NextUrl =>
      case VendorTxCode =>
      case Status =>
      case TxAuthNo =>
      case VendorName =>
      case Avscv2 =>
      case AddressResult =>
      case PostCodeResult =>
      case Cv2Result =>
      case GiftAid =>
      case Cavv =>
      case AddressStatus =>
      case PayerStatus =>
      case CardType =>
      case Last4Digits =>
      case VpsSignature =>
      case ThreeDSecureStatus =>
      case Id =>
    }
  }

  /** The property values of a transaction; a property that is nil is absent. */
  type Props = map<Field, string>

  /** A field mapping handed to the constructor or to `merge!`; values may be nil. */
  type Params = map<string, Option<string>>

  function Get(props: Props, f: Field): Option<string>
  {
    if f in props then Some(props[f]) else None
  }

  /** Property values are equal exactly when every property reads the same. */
  lemma PropsByFields(p: Props, q: Props)
    ensures p == q <==> forall f :: Get(p, f) == Get(q, f)
  {
    if forall f :: Get(p, f) == Get(q, f) {
      forall f ensures f in p <==> f in q {
        assert Get(p, f) == Get(q, f);
      }
      assert p.Keys == q.Keys;
      forall f | f in p ensures p[f] == q[f] {
        assert Get(p, f) == Get(q, f);
      }
    }
  }

  /**
   * What params says about property f: nothing (None) when neither of its
   * names is a key, otherwise the value under its own name, or else under
   * the gateway's name.
   */
  function Incoming(params: Params, f: Field): Option<Option<string>>
  {
    if InternalName(f) in params then Some(params[InternalName(f)])
    else if ExternalName(f) in params then Some(params[ExternalName(f)])
    else None
  }

  /**
   * `populate_properties`: every property params mentions takes the value
   * given there (nil included); every other property keeps its value.
   */
  function Populated(props: Props, params: Params): (r: Props)
    ensures forall f :: Incoming(params, f).Some? ==> Get(r, f) == Incoming(params, f).value
    ensures forall f :: Incoming(params, f).None? ==> Get(r, f) == Get(props, f)
  {
    AllFieldsComplete();
    map f | f in AllFields() && (if Incoming(params, f).Some? then Incoming(params, f).value.Some? else f in props)
      :: if Incoming(params, f).Some? then Incoming(params, f).value.value else props[f]
  }

  /** Keys that name no property are ignored. */
  lemma UnknownKeysIgnored(props: Props, params: Params, key: string, v: Option<string>)
    requires forall f :: key != InternalName(f) && key != ExternalName(f)
    ensures Populated(props, params[key := v]) == Populated(props, params)
  {
    var a, b := Populated(props, params[key := v]), Populated(props, params);
    forall f ensures Get(a, f) == Get(b, f) {
      assert Incoming(params[key := v], f) == Incoming(params, f);
    }
    PropsByFields(a, b);
  }
}
