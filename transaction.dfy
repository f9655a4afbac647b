/**
 * `SageParty::Transaction`: one payment attempt with the Sage Pay Server
 * gateway. It is built from a field mapping or from the gateway's reply to
 * a registration, refreshed in place by `merge!` when the gateway's
 * notification arrives, checked against the notification's signature, and
 * answers the gateway with an acknowledgement.
 *
 * The hooks the application supplies are parameters here: the raw reply
 * of the registration request, the stored-transaction lookup `get`, the
 * `notification_url`, and MD5.
 */
module SageParty {
  import opened Optional
  import opened Fields
  import opened ResponseBody
  import RubyString
  import Signature
  import Acknowledgement

  /** `data[key]` on a request's data: nil when the key is missing. */
  function Lookup(data: Params, key: string): Option<string>
  {
    if key in data then data[key] else None
  }

  /**
   * What `register_tx` builds: the parsed reply, with `id` and
   * `vendor_name` taken from the request's `VendorTxCode` and `Vendor`.
   */
  function RegistrationParams(reply: map<string, string>, data: Params): Params
  {
    (map k | k in reply :: Some(reply[k]))["id" := Lookup(data, "VendorTxCode")]["vendor_name" := Lookup(data, "Vendor")]
  }

  /**
   * `merge!(data)` as written: only the entry under the gateway's name
   * `SecurityKey` is deleted before populating, so an entry under the
   * property's own name `security_key` still reaches the security key
   * (MergeTakesSnakeCaseSecurityKey).
   */
  function MergedAsWritten(props: Props, data: Params): (r: Props)
    ensures "security_key" !in data ==> Get(r, SecurityKey) == Get(props, SecurityKey)
    ensures forall f :: f != SecurityKey && Incoming(data, f).Some? ==> Get(r, f) == Incoming(data, f).value
    ensures forall f :: Incoming(data, f).None? ==> Get(r, f) == Get(props, f)
  {
    assert "security_key" !in data ==> Incoming(data - {"SecurityKey"}, SecurityKey).None?;
    assert forall f :: f != SecurityKey ==> Incoming(data - {"SecurityKey"}, f) == Incoming(data, f) by {
      forall f | f != SecurityKey ensures Incoming(data - {"SecurityKey"}, f) == Incoming(data, f) {
        OnlySecurityKeyNamedSo(f);
      }
    }
    Populated(props, data - {"SecurityKey"})
  }

  /**
   * The properties after `merge!(data)`, as the method means it: the
   * security key is never replaced, under either of its names; every other
   * property the data mentions takes the incoming value, nil included; a
   * property it does not mention keeps its value.
   */
  function Merged(props: Props, data: Params): (r: Props)
    ensures Get(r, SecurityKey) == Get(props, SecurityKey)
    ensures forall f :: f != SecurityKey && Incoming(data, f).Some? ==> Get(r, f) == Incoming(data, f).value
    ensures forall f :: Incoming(data, f).None? ==> Get(r, f) == Get(props, f)
  {
    var kept := data - {"SecurityKey", "security_key"};
    assert forall f :: f != SecurityKey ==> Incoming(kept, f) == Incoming(data, f) by {
      forall f | f != SecurityKey ensures Incoming(kept, f) == Incoming(data, f) {
        OnlySecurityKeyNamedSo(f);
      }
    }
    assert Incoming(kept, SecurityKey).None?;
    Populated(props, kept)
  }

  class Transaction {
    /** The property values; a nil property is absent. */
    var props: Props
    /** `@not_found`, as Ruby reads it in a condition. */
    var notFound: bool

    /** `initialize(params)`, where notFound is the truth of `params[:not_found]`. */
    constructor (params: Params, notFound: bool)
      ensures props == Populated(map[], params)
      ensures this.notFound == notFound
    {
      props := Populated(map[], params);
      this.notFound := notFound;
    }

    /** The reader of property f. */
    function Property(f: Field): Option<string>
      reads this
    {
      Get(props, f)
    }

    /** `exists?`: false only for a transaction built as not found. */
    function Exists(): (e: bool)
      reads this
      ensures e <==> !notFound
    {
      !notFound
    }

    /** `==`: every property equal and both existing or both not. */
    function Equals(other: Transaction): (r: bool)
      reads this, other
      ensures r <==> (forall f :: Property(f) == other.Property(f)) && Exists() == other.Exists()
    {
      PropsByFields(props, other.props);
      assert (forall f :: Property(f) == other.Property(f)) <==> (forall f :: Get(props, f) == Get(other.props, f)) by {
        forall f ensures Property(f) == Get(props, f) && other.Property(f) == Get(other.props, f) {
        }
      }
      props == other.props && notFound == other.notFound
    }

    /** `merge!(data)`: stage-two data populates this transaction, never its security key; answers itself. */
    method Merge(data: Params) returns (self: Transaction)
      modifies this`props
      ensures self == this
      ensures props == Merged(old(props), data)
      ensures notFound == old(notFound)
    {
      props := Merged(props, data);
      self := this;
    }

    /**
     * `signature_ok?`, with MD5 as a parameter: it can hold only when the
     * transaction carries a signature, and that signature is upper-case.
     */
    function SignatureOk(hexMd5: string -> string): (ok: bool)
      reads this
      ensures ok ==> Property(VpsSignature).Some?
      ensures ok ==> |Property(VpsSignature).value| == |hexMd5(Signature.SigningString(props))|
      ensures ok ==> forall i :: 0 <= i < |Property(VpsSignature).value| ==>
        !('a' <= Property(VpsSignature).value[i] <= 'z')
    {
      Signature.SignatureOk(props, hexMd5)
    }

    /**
     * `response`, with `notification_url` as a parameter. A missing
     * transaction is answered INVALID whatever it holds; otherwise, read
     * back, the reply says OK exactly when the signature checks and the
     * status is one of OK, NOTAUTHED, ABORT and REJECTED.
     */
    function Response(notificationUrl: string, hexMd5: string -> string): (r: string)
      reads this
      ensures !Exists() ==> r == Acknowledgement.FormatResponse(
        Acknowledgement.Invalid, notificationUrl, Some("Transaction not found"))
      ensures !RubyString.ContainsCrlf(notificationUrl) && !RubyString.ContainsCrlf(Interpolate(Property(Status))) ==>
        var reply := Parsed(r);
        && "Status" in reply
        && (reply["Status"] == "OK" <==>
              Exists() && SignatureOk(hexMd5) && Acknowledgement.OneOf(Property(Status), Acknowledgement.OkStatuses))
        && ("StatusDetail" in reply <==>
              !(Exists() && SignatureOk(hexMd5) && Acknowledgement.OneOf(Property(Status), Acknowledgement.OkStatuses)))
    {
      Acknowledgement.Respond(Exists(), SignatureOk(hexMd5), Property(Status), notificationUrl)
    }

    /**
     * `register_tx(data)`, given the raw reply the registration request
     * returned: a new, existing transaction holding the reply's fields, with
     * `id` and `vendor_name` from the request whatever the reply says.
     */
    static method RegisterTx(data: Params, rawReply: string) returns (t: Transaction)
      ensures fresh(t) && t.Exists()
      ensures t.props == Populated(map[], RegistrationParams(Parsed(rawReply), data))
      ensures t.Property(Id) == Lookup(data, "VendorTxCode")
      ensures t.Property(VendorName) == Lookup(data, "Vendor")
    {
      var hash := ParseResponse(rawReply);
      t := new Transaction(RegistrationParams(hash, data), false);
      RegisteredIdentity(hash, data);
    }

    /** `missing_transaction`: a new transaction that does not exist and holds nothing. */
    static method MissingTransaction() returns (t: Transaction)
      ensures fresh(t) && !t.Exists()
      ensures forall f :: t.Property(f).None?
    {
      t := new Transaction(map[], true);
    }

    /**
     * `find(vendor_id, sage_id)`, with the application's `get` as a
     * parameter: the stored transaction when there is one and its
     * `vps_tx_id` is sage_id, otherwise a new not-found transaction.
     */
    static method Find(vendorId: string, sageId: Option<string>, get: string -> Option<Transaction>)
      returns (t: Transaction)
      ensures get(vendorId).Some? && get(vendorId).value.Property(VpsTxId) == sageId ==>
        t == get(vendorId).value
      ensures get(vendorId).None? || get(vendorId).value.Property(VpsTxId) != sageId ==>
        fresh(t) && !t.Exists() && forall f :: t.Property(f).None?
    {
      var transaction := get(vendorId);
      if transaction.None? || transaction.value.Property(VpsTxId) != sageId {
        t := MissingTransaction();
        return;
      }
      t := transaction.value;
    }
  }

  // -----------------------------------------------------------------------
  // What merge! keeps and what it replaces

  /** The two merges differ only when the data holds an entry under `security_key`. */
  lemma MergesAgree(props: Props, data: Params)
    requires "security_key" !in data
    ensures MergedAsWritten(props, data) == Merged(props, data)
  {
    assert data - {"SecurityKey"} == data - {"SecurityKey", "security_key"};
  }

  /**
   * Only the gateway's name is dropped: the key given under the property's
   * own name `security_key` does replace it.
   */
  lemma MergeTakesSnakeCaseSecurityKey(props: Props, key: Option<string>)
    ensures Get(MergedAsWritten(props, map["security_key" := key]), SecurityKey) == key
  {
    assert map["security_key" := key] - {"SecurityKey"} == map["security_key" := key];
  }

  /**
   * The scenario of the transaction's tests for merge!: card type replaced,
   * gift aid added, status unchanged, security key kept. The merge as
   * written and the intended one both pass it.
   */
  lemma MergeExample(cardType: string, status: string, key: string, giftAid: string, newCardType: string, newKey: string)
    ensures var before := Populated(map[], map["CardType" := Some(cardType), "Status" := Some(status), "SecurityKey" := Some(key)]);
      var data := map["GiftAid" := Some(giftAid), "CardType" := Some(newCardType), "SecurityKey" := Some(newKey)];
      && ExamplePassed(Merged(before, data), cardType, status, key, giftAid, newCardType)
      && ExamplePassed(MergedAsWritten(before, data), cardType, status, key, giftAid, newCardType)
  {
    ExampleBefore(cardType, status, key);
    ExampleData(giftAid, newCardType, newKey);
  }

  /** What the tests expect of the merged transaction. */
  predicate ExamplePassed(after: Props, cardType: string, status: string, key: string, giftAid: string, newCardType: string)
  {
    && Get(after, CardType) == Some(newCardType)
    && Get(after, GiftAid) == Some(giftAid)
    && Get(after, Status) == Some(status)
    && Get(after, SecurityKey) == Some(key)
  }

  /**
   * The signature scenario of the transaction's tests: a registered
   * transaction, merged with a `vps_signature`, passes the check exactly
   * when that signature is the upper-cased digest of vps_tx_id, status,
   * vendor_name and security_key, under either merge.
   */
  lemma SignatureExample(protocol: string, status: string, detail: string, txId: string, key: string,
                         url: string, id: string, vendor: string, sig: string, hexMd5: string -> string)
    ensures var p := Signature.Registered(protocol, status, detail, txId, key, url, id, vendor);
      var d := map["vps_signature" := Some(sig)];
      && (Signature.SignatureOk(Merged(p, d), hexMd5) <==> sig == RubyString.Upcase(hexMd5(txId + status + vendor + key)))
      && (Signature.SignatureOk(MergedAsWritten(p, d), hexMd5) <==> sig == RubyString.Upcase(hexMd5(txId + status + vendor + key)))
  {
    Signature.SigningStringOfRegisteredReply(protocol, status, detail, txId, key, url, id, vendor);
    SignatureMergedOk(Signature.Registered(protocol, status, detail, txId, key, url, id, vendor),
                      txId + status + vendor + key, sig, hexMd5);
  }

  /**
   * SignatureExample on any properties whose signing string is known; split
   * from it only to keep each proof small.
   */
  lemma SignatureMergedOk(p: Props, signed: string, sig: string, hexMd5: string -> string)
    requires Signature.SigningString(p) == signed
    ensures Signature.SignatureOk(Merged(p, map["vps_signature" := Some(sig)]), hexMd5)
      <==> sig == RubyString.Upcase(hexMd5(signed))
    ensures Signature.SignatureOk(MergedAsWritten(p, map["vps_signature" := Some(sig)]), hexMd5)
      <==> sig == RubyString.Upcase(hexMd5(signed))
  {
    SignatureMerged(p, sig, hexMd5);
    SignatureMergedAsWritten(p, sig, hexMd5);
  }

  /**
   * Merging a lone `vps_signature` sets it and keeps the signing string, so
   * the check compares it with the digest of the old signing string.
   */
  lemma SignatureMerged(p: Props, sig: string, hexMd5: string -> string)
    ensures Signature.SignatureOk(Merged(p, map["vps_signature" := Some(sig)]), hexMd5)
      <==> sig == RubyString.Upcase(hexMd5(Signature.SigningString(p)))
  {
    var d := map["vps_signature" := Some(sig)];
    forall f | !Signature.Unsigned(f) ensures Get(Merged(p, d), f) == Get(p, f) {
      SignedNotNamedSo(f, sig);
    }
    assert Incoming(d, VpsSignature) == Some(Some(sig));
    Signature.SameRuns(Merged(p, d), p);
    SignatureOkOn(Merged(p, d), Signature.SigningString(p), sig, hexMd5);
  }

  /** SignatureMerged for the merge as written. */
  lemma SignatureMergedAsWritten(p: Props, sig: string, hexMd5: string -> string)
    ensures Signature.SignatureOk(MergedAsWritten(p, map["vps_signature" := Some(sig)]), hexMd5)
      <==> sig == RubyString.Upcase(hexMd5(Signature.SigningString(p)))
  {
    var d := map["vps_signature" := Some(sig)];
    forall f | !Signature.Unsigned(f) ensures Get(MergedAsWritten(p, d), f) == Get(p, f) {
      SignedNotNamedSo(f, sig);
    }
    assert Incoming(d, VpsSignature) == Some(Some(sig));
    Signature.SameRuns(MergedAsWritten(p, d), p);
    SignatureOkOn(MergedAsWritten(p, d), Signature.SigningString(p), sig, hexMd5);
  }

  /** The check passes exactly when the signature is the upper-cased digest of the signing string. */
  lemma SignatureOkOn(m: Props, signed: string, sig: string, hexMd5: string -> string)
    requires Get(m, VpsSignature) == Some(sig) && Signature.SigningString(m) == signed
    ensures Signature.SignatureOk(m, hexMd5) <==> sig == RubyString.Upcase(hexMd5(signed))
  {
  }

  /** A signed property is not read under `vps_signature`. */
  lemma SignedNotNamedSo(f: Field, sig: string)
    requires !Signature.Unsigned(f)
    ensures Incoming(map["vps_signature" := Some(sig)], f).None?
  {
  }

  /** What the tests' transaction holds before the merge. */
  lemma ExampleBefore(cardType: string, status: string, key: string)
    ensures var m := map["CardType" := Some(cardType), "Status" := Some(status), "SecurityKey" := Some(key)];
      && Incoming(m, Status) == Some(Some(status))
      && Incoming(m, SecurityKey) == Some(Some(key))
  {
  }

  /** What the tests' merged data says of each property. */
  lemma ExampleData(giftAid: string, newCardType: string, newKey: string)
    ensures var d := map["GiftAid" := Some(giftAid), "CardType" := Some(newCardType), "SecurityKey" := Some(newKey)];
      && Incoming(d, CardType) == Some(Some(newCardType))
      && Incoming(d, GiftAid) == Some(Some(giftAid))
      && Incoming(d, Status).None?
      && "security_key" !in d
  {
  }

  /**
   * A security key sent with the merged data, under either name, cannot
   * change the signature check's outcome.
   */
  lemma MergedSignatureUsesStoredKey(props: Props, data: Params, gatewayKey: Option<string>, ownKey: Option<string>,
                                     hexMd5: string -> string)
    ensures Signature.SignatureOk(Merged(props, data["SecurityKey" := gatewayKey]["security_key" := ownKey]), hexMd5)
         == Signature.SignatureOk(Merged(props, data), hexMd5)
  {
    assert data["SecurityKey" := gatewayKey]["security_key" := ownKey] - {"SecurityKey", "security_key"}
        == data - {"SecurityKey", "security_key"};
  }

  // -----------------------------------------------------------------------
  // What register_tx builds

  /** `id` and `vendor_name` come from the request, whatever the reply holds. */
  lemma RegisteredIdentity(reply: map<string, string>, data: Params)
    ensures Get(Populated(map[], RegistrationParams(reply, data)), Id) == Lookup(data, "VendorTxCode")
    ensures Get(Populated(map[], RegistrationParams(reply, data)), VendorName) == Lookup(data, "Vendor")
  {
    var r := RegistrationParams(reply, data);
    assert "id" != "vendor_name";
    assert r["id"] == Lookup(data, "VendorTxCode") && r["vendor_name"] == Lookup(data, "Vendor");
    assert Incoming(r, Id) == Some(r["id"]);
    assert Incoming(r, VendorName) == Some(r["vendor_name"]);
  }

  /**
   * A reply line `Name=value` under a property's gateway name lands whole
   * in that property (a value holding `=` included), unless a later line
   * repeats the name or a line uses the property's own name.
   */
  lemma RegisteredFromLine(body: string, data: Params, i: int, f: Field, v: string)
    requires f != Id && f != VendorName
    requires 0 <= i < |RubyString.SplitCrlf(body)|
    requires RubyString.SplitCrlf(body)[i] == ExternalName(f) + "=" + v
    requires forall j :: i < j < |RubyString.SplitCrlf(body)| ==> !HasKey(RubyString.SplitCrlf(body)[j], ExternalName(f))
    requires forall j :: 0 <= j < |RubyString.SplitCrlf(body)| ==> !HasKey(RubyString.SplitCrlf(body)[j], InternalName(f))
    ensures Get(Populated(map[], RegistrationParams(Parsed(body), data)), f) == Some(v)
  {
    var lines := RubyString.SplitCrlf(body);
    NoEqualsInExternalName(f);
    ValueKeptWhole(ExternalName(f), v);
    CollectLastWins(lines, i, ExternalName(f), v);
    if InternalName(f) in Parsed(body) {
      CollectKeysFromLines(lines, InternalName(f));
    }
    RegisteredFromReply(Parsed(body), data, f, v);
  }

  /** The step of RegisteredFromLine on the parsed reply. */
  lemma RegisteredFromReply(reply: map<string, string>, data: Params, f: Field, v: string)
    requires f != Id && f != VendorName
    requires InternalName(f) !in reply
    requires ExternalName(f) in reply && reply[ExternalName(f)] == v
    ensures Get(Populated(map[], RegistrationParams(reply, data)), f) == Some(v)
  {
    OnlyIdentityNamedSo(f);
    assert Incoming(RegistrationParams(reply, data), f) == Some(Some(v));
  }
}
