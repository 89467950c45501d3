/**
 * The `POST /signature` handler. It mints a timestamp in whole seconds,
 * fixes the parameters to sign (`timestamp`, `upload_preset: "testing"`,
 * `folder: "sa"`), answers with the plain text "No API secret" when the
 * secret is empty, and otherwise answers with JSON carrying the signed
 * fields and their signature. The request body is not read. The clock is
 * the parameter `nowMillis`; the secret comes from the environment.
 */
module SigningEndpoint {
  import opened Wrappers
  import opened Js
  import opened Signature

  const UploadPreset: string := "testing"
  const Folder: string := "sa"
  const NoSecretMessage: string := "No API secret"

  /** `Math.round(new Date().getTime() / 1000)`: the nearest second, a half rounding up. */
  function Timestamp(nowMillis: int): (t: int)
    ensures 1000 * t - 500 <= nowMillis < 1000 * t + 500
  {
    RoundQuotient(nowMillis, 1000)
  }

  /** The object `paramsToSign`, in its literal order. */
  function ParamsToSign(timestamp: int): seq<Prop>
  {
    [Prop("timestamp", Num(timestamp), true),
     Prop("upload_preset", Str(UploadPreset), true),
     Prop("folder", Str(Folder), true)]
  }

  datatype Response = PlainText(text: string) | JsonBody(fields: seq<Prop>)

  function Post(nowMillis: int, secret: string, digest: string -> Sha1Digest): (r: Response)
    ensures r.PlainText? <==> secret == ""
    ensures r.PlainText? ==> r.text == NoSecretMessage
  {
    var timestamp := Timestamp(nowMillis);
    var paramsToSign := ParamsToSign(timestamp);
    if secret == "" then PlainText(NoSecretMessage)
    else
      var signature := Sign(paramsToSign, secret, digest);
      JsonBody([Prop("timestamp", Num(timestamp), true),
                Prop("signature", Str(signature), true),
                Prop("folder", paramsToSign[2].value, true),
                Prop("upload_preset", paramsToSign[1].value, true)])
  }

  /** The value of the first field called `name`, as a JSON reader sees it. */
  function Field(fields: seq<Prop>, name: string): Option<Value>
  {
    if fields == [] then None
    else if fields[0].key == name then Some(fields[0].value)
    else Field(fields[1..], name)
  }

  /** The fields other than those called `name`. */
  function Without(fields: seq<Prop>, name: string): (r: seq<Prop>)
    ensures forall i :: 0 <= i < |r| ==> r[i].key != name && r[i] in fields
  {
    if fields == [] then []
    else if fields[0].key == name then Without(fields[1..], name)
    else [fields[0]] + Without(fields[1..], name)
  }

  function Keys(fields: seq<Prop>): set<string>
  {
    set i | 0 <= i < |fields| :: fields[i].key
  }

  /** The successful response, field by field. */
  lemma PostFields(nowMillis: int, secret: string, digest: string -> Sha1Digest) returns (signed: seq<Prop>, sg: Prop)
    requires secret != ""
    ensures signed == ParamsToSign(Timestamp(nowMillis))
    ensures sg == Prop("signature", Str(Sign(signed, secret, digest)), true)
    ensures Post(nowMillis, secret, digest) == JsonBody([signed[0], sg, signed[2], signed[1]])
  {
    signed := ParamsToSign(Timestamp(nowMillis));
    sg := Prop("signature", Str(Sign(signed, secret, digest)), true);
  }

  /**
   * A successful response names exactly the signed fields plus `signature`,
   * each signed field with the very value that was signed, and the
   * signature is that of the signed parameters.
   */
  lemma ResponseMirrorsSignedParams(nowMillis: int, secret: string, digest: string -> Sha1Digest)
    requires secret != ""
    ensures var r := Post(nowMillis, secret, digest);
      var signed := ParamsToSign(Timestamp(nowMillis));
      && r.JsonBody?
      && Keys(r.fields) == Keys(signed) + {"signature"}
      && (forall i :: 0 <= i < |signed| ==> Field(r.fields, signed[i].key) == Some(signed[i].value))
      && Field(r.fields, "signature") == Some(Str(Sign(signed, secret, digest)))
  {
    var signed, sg := PostFields(nowMillis, secret, digest);
    MirroredFields(signed[0], sg, signed[2], signed[1]);
    assert signed == [signed[0], signed[1], signed[2]];
  }

  lemma MirroredFields(ts: Prop, sg: Prop, fo: Prop, up: Prop)
    requires ts.key == "timestamp" && sg.key == "signature" && fo.key == "folder" && up.key == "upload_preset"
    ensures var fs := [ts, sg, fo, up];
      && Keys(fs) == Keys([ts, up, fo]) + {"signature"}
      && Field(fs, "timestamp") == Some(ts.value)
      && Field(fs, "signature") == Some(sg.value)
      && Field(fs, "folder") == Some(fo.value)
      && Field(fs, "upload_preset") == Some(up.value)
  {
    var fs := [ts, sg, fo, up];
    assert fs[1..] == [sg, fo, up] && fs[2..] == [fo, up] && fs[3..] == [up];
    assert Field([up], "upload_preset") == Some(up.value);
    assert Field([fo, up], "upload_preset") == Some(up.value);
    assert Field([fo, up], "folder") == Some(fo.value);
    assert Field([sg, fo, up], "upload_preset") == Some(up.value);
    assert Field([sg, fo, up], "folder") == Some(fo.value);
    assert Keys(fs) == {"timestamp", "signature", "folder", "upload_preset"} by {
      assert fs[0].key == "timestamp" && fs[1].key == "signature";
      assert fs[2].key == "folder" && fs[3].key == "upload_preset";
    }
    var signed := [ts, up, fo];
    assert Keys(signed) == {"timestamp", "upload_preset", "folder"} by {
      assert signed[0].key == "timestamp" && signed[1].key == "upload_preset" && signed[2].key == "folder";
    }
  }

  /**
   * Whoever re-signs the returned fields other than `signature`, in the
   * order the response lists them, gets the returned signature.
   */
  lemma ResponseVerifies(nowMillis: int, secret: string, digest: string -> Sha1Digest)
    requires secret != ""
    ensures var r := Post(nowMillis, secret, digest);
      r.JsonBody? && Field(r.fields, "signature") == Some(Str(Sign(Without(r.fields, "signature"), secret, digest)))
  {
    var signed, sg := PostFields(nowMillis, secret, digest);
    ResignedBody(signed, sg, secret, digest);
  }

  lemma ResignedBody(signed: seq<Prop>, sg: Prop, secret: string, digest: string -> Sha1Digest)
    requires |signed| == 3
    requires signed[0].key == "timestamp" && signed[1].key == "upload_preset" && signed[2].key == "folder"
    requires sg == Prop("signature", Str(Sign(signed, secret, digest)), true)
    ensures var fs := [signed[0], sg, signed[2], signed[1]];
      Field(fs, "signature") == Some(Str(Sign(Without(fs, "signature"), secret, digest)))
  {
    SecondField(signed[0], sg, signed[2], signed[1], "signature");
    SignReordered(signed, secret, digest);
  }

  lemma SignReordered(signed: seq<Prop>, secret: string, digest: string -> Sha1Digest)
    requires |signed| == 3
    ensures Sign([signed[0], signed[2], signed[1]], secret, digest) == Sign(signed, secret, digest)
  {
    assert signed == [signed[0], signed[1], signed[2]];
    assert multiset([signed[0], signed[2], signed[1]]) == multiset(signed);
    SignatureOrderIndependent([signed[0], signed[2], signed[1]], signed, secret, digest);
  }

  /** A field other than the first, read and removed. */
  lemma SecondField(a: Prop, b: Prop, c: Prop, d: Prop, name: string)
    requires b.key == name && a.key != name && c.key != name && d.key != name
    ensures Field([a, b, c, d], name) == Some(b.value)
    ensures Without([a, b, c, d], name) == [a, c, d]
  {
    assert [a, b, c, d][1..] == [b, c, d];
    assert [b, c, d][1..] == [c, d];
    assert [c, d][1..] == [d];
    assert [d][1..] == [];
    assert Without([d], name) == [d];
    assert Without([c, d], name) == [c, d];
    assert Without([b, c, d], name) == [c, d];
  }

  /** The tokens of the fixed parameters, in the literal's order. */
  lemma ParamsTokens(timestamp: int)
    ensures Tokens(ParamsToSign(timestamp))
      == (if timestamp != 0 then ["timestamp=" + NumberToString(timestamp)] else [])
         + ["upload_preset=testing", "folder=sa"]
  {
    var props := ParamsToSign(timestamp);
    ThreeProps(props[0], props[1], props[2]);
    assert Token(props[0]) == "timestamp=" + NumberToString(timestamp) by {
      assert "timestamp" + "=" == "timestamp=";
    }
    assert Token(props[1]) == "upload_preset=testing";
    assert Token(props[2]) == "folder=sa";
  }

  /**
   * The string hashed for the fixed parameters: the three tokens in the
   * order `folder`, `timestamp`, `upload_preset`, then the secret.
   */
  lemma SignedCanonicalString(timestamp: int, secret: string)
    requires timestamp != 0
    ensures CanonicalString(ParamsToSign(timestamp), secret)
      == "folder=sa&timestamp=" + NumberToString(timestamp) + "&upload_preset=testing" + secret
  {
    var n := NumberToString(timestamp);
    var props := ParamsToSign(timestamp);
    ParamsTokens(timestamp);
    SignedOrder(n);
    RotatedThree("timestamp=" + n, "upload_preset=testing", "folder=sa");
    ThreeTokens(props, "folder=sa", "timestamp=" + n, "upload_preset=testing", secret);
    SignedText("folder=sa", "timestamp=" + n, "upload_preset=testing", n, secret);
  }

  /** `folder` < `timestamp` < `upload_preset`, whatever the digits. */
  lemma SignedOrder(n: string)
    ensures Less("folder=sa", "timestamp=" + n) && Less("timestamp=" + n, "upload_preset=testing")
  {
    LessAtFirst("folder=sa", "timestamp=" + n);
    LessAtFirst("timestamp=" + n, "upload_preset=testing");
  }

  lemma RotatedThree(x: string, y: string, z: string)
    ensures multiset([x, y, z]) == multiset([z, x, y])
  {
  }

  lemma SignedText(f: string, t: string, u: string, n: string, secret: string)
    requires f == "folder=sa" && t == "timestamp=" + n && u == "upload_preset=testing"
    ensures f + "&" + t + "&" + u + secret == "folder=sa&timestamp=" + n + "&upload_preset=testing" + secret
  {
    assert f + "&" + "timestamp=" == "folder=sa&timestamp=";
    assert "&" + u == "&upload_preset=testing";
  }

  /**
   * A timestamp of zero is falsy: it drops out of the signed string, though
   * the response still carries it.
   */
  lemma ZeroTimestampNotSigned(timestamp: int, secret: string)
    requires timestamp == 0
    ensures CanonicalString(ParamsToSign(timestamp), secret) == "folder=sa&upload_preset=testing" + secret
  {
    var u := "upload_preset=testing";
    var f := "folder=sa";
    ParamsTokens(timestamp);
    LessAtFirst(f, u);
    LessAsymmetric(f, u);
    var order := [f, u];
    assert Sorted(order) by {
      forall i, j | 0 <= i < j < 2 ensures !Less(order[j], order[i]) {
        assert order[i] == f && order[j] == u;
      }
    }
    assert multiset(order) == multiset([u, f]);
    CanonicalFromSortedTokens(ParamsToSign(timestamp), order, secret);
    UnsignedTimestampJoin(order);
  }

  lemma UnsignedTimestampJoin(order: seq<string>)
    requires order == ["folder=sa", "upload_preset=testing"]
    ensures Join(order, "&") == "folder=sa&upload_preset=testing"
  {
  }

  /** Any clock reading from half a second after the epoch on signs all three fields. */
  lemma AllFieldsSigned(nowMillis: int)
    requires nowMillis >= 500
    ensures forall i :: 0 <= i < 3 ==> Kept(ParamsToSign(Timestamp(nowMillis))[i])
  {
  }

  /** Appending a digit to a number appends its character to the rendering. */
  lemma DecimalStep(n: nat, s: string, d: nat, c: char)
    requires n >= 1 && NatToDecimal(n) == s && d < 10 && c == DigitChar(d)
    ensures NatToDecimal(10 * n + d) == s + [c]
  {
    assert (10 * n + d) / 10 == n && (10 * n + d) % 10 == d;
  }

  /**
   * The example fixture: `{timestamp: 1700000000, upload_preset: "testing",
   * folder: "sa"}` hashes `folder=sa&timestamp=1700000000&upload_preset=testing`
   * followed by the secret.
   */
  lemma FixtureCanonicalString(timestamp: int, secret: string)
    requires timestamp == 1700000000
    ensures CanonicalString(ParamsToSign(timestamp), secret)
      == "folder=sa&timestamp=1700000000&upload_preset=testing" + secret
  {
    SignedCanonicalString(timestamp, secret);
    FixtureDecimal(timestamp);
    FixtureText(NumberToString(timestamp));
  }

  lemma FixtureText(n: string)
    requires n == "1700000000"
    ensures "folder=sa&timestamp=" + n + "&upload_preset=testing"
         == "folder=sa&timestamp=1700000000&upload_preset=testing"
  {
  }

  lemma FixtureDecimal(timestamp: int)
    requires timestamp == 1700000000
    ensures NumberToString(timestamp) == "1700000000"
  {
    var zero: nat, seven: nat := 0, 7;
    var n: nat, s: string := 1, "1";
    assert NatToDecimal(n) == s;
    DecimalStep(n, s, seven, '7');
    n, s := 10 * n + seven, s + ['7'];
    DecimalStep(n, s, zero, '0');
    n, s := 10 * n, s + ['0'];
    DecimalStep(n, s, zero, '0');
    n, s := 10 * n, s + ['0'];
    DecimalStep(n, s, zero, '0');
    n, s := 10 * n, s + ['0'];
    DecimalStep(n, s, zero, '0');
    n, s := 10 * n, s + ['0'];
    DecimalStep(n, s, zero, '0');
    n, s := 10 * n, s + ['0'];
    DecimalStep(n, s, zero, '0');
    n, s := 10 * n, s + ['0'];
    DecimalStep(n, s, zero, '0');
    n, s := 10 * n, s + ['0'];
    DecimalStep(n, s, zero, '0');
    n, s := 10 * n, s + ['0'];
  }
}
