/** The inspection metadata written into each saved image: a JSON object with
    four members (site, part, detail, capture time, in that order), turned into
    UTF-8 octets, base-64 encoded, and stored as the single value of the EXIF
    ImageDescription tag. The location is not part of it. */
module Metadata {
  import opened Basics
  import Json
  import Utf8
  import Base64

  const SiteKey: string := "현장명"
  const PartKey: string := "구분"
  const DetailKey: string := "세부점검부위"
  const CapturedAtKey: string := "촬영시각"

  datatype Payload = Payload(siteName: string, inspectionPart: string, inspectionDetail: string, capturedAt: string)

  /** The members in the order the payload object is filled. */
  function Members(p: Payload): seq<Json.Member> {
    [(SiteKey, p.siteName), (PartKey, p.inspectionPart), (DetailKey, p.inspectionDetail), (CapturedAtKey, p.capturedAt)]
  }

  function JsonText(p: Payload): string {
    Json.Serialize(Members(p))
  }

  /** The value of the ImageDescription tag for a payload. */
  function Describe(p: Payload): string {
    Base64.Encode(Utf8.Encode(JsonText(p)))
  }

  /** Reads a tag value back: base 64 (line breaks skipped), UTF-8, the JSON
      object, then the four members by key. */
  function ReadDescription(tag: string): Option<Payload> {
    var octets :- Base64.Decode(tag);
    var text :- Utf8.Decode(octets);
    var ms :- Json.ParseObject(text);
    var site :- Json.Lookup(ms, SiteKey);
    var part :- Json.Lookup(ms, PartKey);
    var detail :- Json.Lookup(ms, DetailKey);
    var at :- Json.Lookup(ms, CapturedAtKey);
    Some(Payload(site, part, detail, at))
  }

  /** The JSON text is an object with exactly the four keys, in order, each
      mapped to its field. */
  lemma ObjectHasExactlyTheFourKeys(p: Payload)
    ensures Json.ParseObject(JsonText(p)) == Some(Members(p))
    ensures |Members(p)| == 4
    ensures Members(p)[0] == (SiteKey, p.siteName)
    ensures Members(p)[1] == (PartKey, p.inspectionPart)
    ensures Members(p)[2] == (DetailKey, p.inspectionDetail)
    ensures Members(p)[3] == (CapturedAtKey, p.capturedAt)
  {
    Json.ObjectRoundTrip(Members(p));
  }

  /** The four keys are distinct, so each lookup finds its own member. */
  lemma LookupsFindTheFields(p: Payload)
    ensures Json.Lookup(Members(p), SiteKey) == Some(p.siteName)
    ensures Json.Lookup(Members(p), PartKey) == Some(p.inspectionPart)
    ensures Json.Lookup(Members(p), DetailKey) == Some(p.inspectionDetail)
    ensures Json.Lookup(Members(p), CapturedAtKey) == Some(p.capturedAt)
  {
    assert SiteKey != PartKey && SiteKey != DetailKey && SiteKey != CapturedAtKey;
    assert PartKey != DetailKey && PartKey != CapturedAtKey && DetailKey != CapturedAtKey;
    var ms := Members(p);
    assert ms[1..][1..] == ms[2..] && ms[2..][1..] == ms[3..];
    assert Json.Lookup(ms[3..], CapturedAtKey) == Some(p.capturedAt);
    assert Json.Lookup(ms[2..], CapturedAtKey) == Some(p.capturedAt);
    assert Json.Lookup(ms[2..], DetailKey) == Some(p.inspectionDetail);
    assert Json.Lookup(ms[1..], CapturedAtKey) == Some(p.capturedAt);
    assert Json.Lookup(ms[1..], DetailKey) == Some(p.inspectionDetail);
  }

  /** One read of the tag recovers all four values. */
  lemma DescriptionRoundTrip(p: Payload)
    ensures ReadDescription(Describe(p)) == Some(p)
  {
    var text := JsonText(p);
    assert Base64.Decode(Describe(p)) == Some(Utf8.Encode(text)) by {
      Base64.RoundTrip(Utf8.Encode(text));
    }
    assert Utf8.Decode(Utf8.Encode(text)) == Some(text) by {
      Utf8.RoundTrip(text);
    }
    assert Json.ParseObject(text) == Some(Members(p)) by {
      Json.ObjectRoundTrip(Members(p));
    }
    LookupsFindTheFields(p);
  }

  /** Different payloads never share a tag value. */
  lemma DescribeInjective(p: Payload, q: Payload)
    requires Describe(p) == Describe(q)
    ensures p == q
  {
    DescriptionRoundTrip(p);
    DescriptionRoundTrip(q);
  }

  /** The tag still reads back when the encoder's output is broken into
      lines anywhere, however many line breaks are inserted, as the platform
      encoder's 76-character wrapping and closing newline do. */
  lemma WrappedDescriptionReads(p: Payload, t: string)
    requires Base64.RemoveLineBreaks(t) == Describe(p)
    ensures ReadDescription(t) == Some(p)
  {
    var d := Describe(p);
    Base64.NoLineBreaksUnchanged(d);
    SameOctetsSameRead(t, d);
    DescriptionRoundTrip(p);
  }

  /** Reading depends on the tag only through its decoded octets. */
  lemma SameOctetsSameRead(t: string, u: string)
    requires Base64.Decode(t) == Base64.Decode(u)
    ensures ReadDescription(t) == ReadDescription(u)
  {
  }
}
