/** The DER reader the Windows CA uses to pull the public key out of a certificate request. */
module Der {
  import opened Prelude

  type Byte = b: nat | b < 256
  type Bytes = seq<Byte>

  datatype Tlv = Tlv(tag: Byte, raw: Bytes, value: Bytes, next: nat)
  datatype Error = IndexError

  /** data[i:j]: Python slices clamp to the ends instead of failing. */
  function Slice(data: Bytes, i: nat, j: nat): Bytes {
    if i <= Min(j, |data|) then data[i..Min(j, |data|)] else []
  }

  /** int.from_bytes(b, "big"); the empty slice is 0. */
  function FromBytes(b: Bytes): nat {
    if b == [] then 0 else 256 * FromBytes(b[..|b| - 1]) + b[|b| - 1]
  }

  function ParseTlv(data: Bytes, offset: nat): Result<Tlv, Error> {
    if offset + 2 > |data| then Err(IndexError)
    else
      var lb := data[offset + 1];
      var n := if lb >= 128 then lb - 128 else 0;   // lb & 0x80, lb & 0x7F
      var start := offset + 2 + n;
      var length := if lb >= 128 then FromBytes(Slice(data, offset + 2, start)) else lb;
      Ok(Tlv(data[offset], Slice(data, offset, start + length), Slice(data, start, start + length), start + length))
  }

  function ExtractPublicKey(csr: Bytes): Result<Bytes, Error> {
    match ParseTlv(csr, 0)
    case Err(e) => Err(e)
    case Ok(outer) =>
    match ParseTlv(outer.value, 0)
    case Err(e) => Err(e)
    case Ok(info) =>
    match ParseTlv(info.value, 0)
    case Err(e) => Err(e)
    case Ok(version) =>
    match ParseTlv(info.value, version.next)
    case Err(e) => Err(e)
    case Ok(subject) =>
    match ParseTlv(info.value, subject.next)
    case Err(e) => Err(e)
    case Ok(spki) => Ok(spki.raw)
  }

  // ----- Definite-length encodings, section 8.1.3 of ITU-T X.690 -----

  /**
   * The length octets: short form, or long form with leading zero octets allowed. The reader also
   * takes 127 length octets, a count X.690 reserves.
   */
  predicate LengthOctets(octets: Bytes, length: nat) {
    || (|octets| == 1 && octets[0] == length < 128)
    || (2 <= |octets| <= 128 && octets[0] == 127 + |octets| && FromBytes(octets[1..]) == length)
  }

  /** `raw` is the single-byte-tag, definite-length encoding of `value`, in any of its forms. */
  ghost predicate Encodes(raw: Bytes, tag: Byte, value: Bytes) {
    exists octets: Bytes :: LengthOctets(octets, |value|) && raw == [tag] + octets + value
  }

  function ToBytes(n: nat): Bytes {
    if n < 256 then [n] else ToBytes(n / 256) + [n % 256]
  }

  /** The one form DER allows (section 10.1 of X.690): as few octets as possible. */
  function DerLength(n: nat): Bytes
    requires |ToBytes(n)| < 128
  {
    if n < 128 then [n] else [128 + |ToBytes(n)|] + ToBytes(n)
  }

  lemma {:induction false} FromBytesReadsBack(n: nat)
    ensures FromBytes(ToBytes(n)) == n && ToBytes(n) != []
  {
    if n < 256 {
      assert ToBytes(n)[..0] == [];
    } else {
      FromBytesReadsBack(n / 256);
      assert ToBytes(n)[..|ToBytes(n)| - 1] == ToBytes(n / 256);
    }
  }

  /** So DER encodings are among those the reader is proved on. */
  lemma DerEncodes(tag: Byte, value: Bytes)
    requires |ToBytes(|value|)| < 128
    ensures Encodes([tag] + DerLength(|value|) + value, tag, value)
  {
    FromBytesReadsBack(|value|);
    var octets := DerLength(|value|);
    assert |value| >= 128 ==> octets[1..] == ToBytes(|value|);
    assert LengthOctets(octets, |value|);
  }

  // ----- The reader on encodings -----

  lemma SliceAt(data: Bytes, pre: Bytes, part: Bytes, suf: Bytes)
    requires data == pre + part + suf
    ensures Slice(data, |pre|, |pre| + |part|) == part
  {
  }

  /** Reading the tag and length octets, whatever follows them. */
  lemma HeaderReads(data: Bytes, pre: Bytes, tag: Byte, octets: Bytes, length: nat, body: Bytes)
    requires LengthOctets(octets, length) && data == pre + [tag] + octets + body
    ensures var start := |pre| + 1 + |octets|;
      ParseTlv(data, |pre|)
        == Ok(Tlv(tag, Slice(data, |pre|, start + length), Slice(data, start, start + length), start + length))
  {
    assert data[|pre|] == tag && data[|pre| + 1] == octets[0];
    SliceAt(data, pre + [tag, octets[0]], octets[1..], body) by {
      assert octets == [octets[0]] + octets[1..];
    }
  }

  /** At any position of any data, every definite encoding is read back exactly. */
  lemma EncodingReadsBack(pre: Bytes, raw: Bytes, tag: Byte, value: Bytes, suf: Bytes)
    requires Encodes(raw, tag, value)
    ensures ParseTlv(pre + raw + suf, |pre|) == Ok(Tlv(tag, raw, value, |pre| + |raw|))
  {
    var octets: Bytes :| LengthOctets(octets, |value|) && raw == [tag] + octets + value;
    var data := pre + raw + suf;
    HeaderReads(data, pre, tag, octets, |value|, value + suf);
    SliceAt(data, pre, raw, suf);
    SliceAt(data, pre + [tag] + octets, value, suf);
  }

  lemma CutInThree(data: Bytes, a: nat, b: nat, c: nat)
    requires a < b <= c <= |data|
    ensures data[a..c] == [data[a]] + data[a + 1..b] + data[b..c]
  {
  }

  /** What is read inside the data is an encoding there, except that 0x80 counts as length zero. */
  lemma ReadIsEncoding(data: Bytes, offset: nat)
    requires ParseTlv(data, offset).Ok? && ParseTlv(data, offset).value.next <= |data|
    ensures var t := ParseTlv(data, offset).value;
      && offset + |t.raw| == t.next && t.raw == data[offset..t.next]
      && (Encodes(t.raw, t.tag, t.value) <==> t.raw[1] != 128)
      && (t.raw[1] == 128 ==> t.raw == [t.tag, 128] && t.value == [])
  {
    var t := ParseTlv(data, offset).value;
    var lb := data[offset + 1];
    var n := if lb >= 128 then lb - 128 else 0;
    var start := offset + 2 + n;
    var octets := data[offset + 1..start];
    assert t.raw == [t.tag] + octets + t.value by {
      CutInThree(data, offset, start, t.next);
    }
    assert octets[0] == lb && t.raw[1] == lb;
    if lb != 128 {
      assert octets[1..] == data[offset + 2..start];
      assert LengthOctets(octets, |t.value|);
    }
  }

  /** Success inside the data is exactly a definite encoding at the offset, or a lone 0x80 length. */
  lemma ReadsExactlyEncodings(data: Bytes, offset: nat, t: Tlv)
    ensures ParseTlv(data, offset) == Ok(t) && t.next <= |data| <==>
      && offset + |t.raw| == t.next <= |data| && t.raw == data[offset..t.next]
      && (Encodes(t.raw, t.tag, t.value) || (t.raw == [t.tag, 128] && t.value == []))
  {
    if ParseTlv(data, offset) == Ok(t) && t.next <= |data| {
      ReadIsEncoding(data, offset);
    } else if offset + |t.raw| == t.next <= |data| && t.raw == data[offset..t.next] {
      assert data == data[..offset] + t.raw + data[t.next..];
      if Encodes(t.raw, t.tag, t.value) {
        EncodingReadsBack(data[..offset], t.raw, t.tag, t.value, data[t.next..]);
      }
    }
  }

  /** Truncation goes unnoticed: an encoding cut inside its value still parses, to what is left of it. */
  lemma TruncatedReads(tag: Byte, octets: Bytes, value: Bytes, k: nat)
    requires LengthOctets(octets, |value|) && k < |value|
    ensures ParseTlv([tag] + octets + value[..k], 0)
         == Ok(Tlv(tag, [tag] + octets + value[..k], value[..k], 1 + |octets| + |value|))
  {
    var data := [tag] + octets + value[..k];
    HeaderReads(data, [], tag, octets, |value|, value[..k]);
    assert Slice(data, 0, 1 + |octets| + |value|) == data;
    assert Slice(data, 1 + |octets|, 1 + |octets| + |value|) == value[..k];
  }

  // ----- Certificate requests, sections 4.1 and 4.2 of RFC 2986 -----

  ghost predicate IsTlv(raw: Bytes) {
    exists tag, value :: Encodes(raw, tag, value)
  }

  /** `info` holds version, subject, key and attributes, the first three encodings of their own. */
  ghost predicate RequestInfo(info: Bytes, version: Bytes, subject: Bytes, spki: Bytes, attributes: Bytes) {
    && IsTlv(version) && IsTlv(subject) && IsTlv(spki)
    && exists tag :: Encodes(info, tag, version + subject + spki + attributes)
  }

  /** `raw` is found at |pre| and reading goes on behind it. */
  ghost predicate ReadAt(data: Bytes, pre: Bytes, raw: Bytes) {
    var r := ParseTlv(data, |pre|);
    r.Ok? && r.value.raw == raw && r.value.next == |pre + raw|
  }

  lemma TlvReadAt(data: Bytes, pre: Bytes, raw: Bytes, suf: Bytes)
    requires IsTlv(raw) && data == pre + raw + suf
    ensures ReadAt(data, pre, raw)
  {
    var tag, value :| Encodes(raw, tag, value);
    EncodingReadsBack(pre, raw, tag, value, suf);
  }

  lemma InfoReadsKey(content: Bytes, version: Bytes, subject: Bytes, spki: Bytes, attributes: Bytes)
    requires IsTlv(version) && IsTlv(subject) && IsTlv(spki)
    requires content == version + subject + spki + attributes
    ensures ReadAt(content, [], version)
    ensures ReadAt(content, version, subject)
    ensures ReadAt(content, version + subject, spki)
  {
    TlvReadAt(content, [], version, subject + spki + attributes);
    TlvReadAt(content, version, subject, spki + attributes);
    TlvReadAt(content, version + subject, spki, attributes);
  }

  /** The extracted key is the request's SubjectPublicKeyInfo, whatever the subject, the forms and what follows. */
  lemma ExtractsSubjectKey(csr: Bytes, tag: Byte, info: Bytes, signature: Bytes, trailing: Bytes,
      version: Bytes, subject: Bytes, spki: Bytes, attributes: Bytes)
    requires Encodes(csr, tag, info + signature)
    requires RequestInfo(info, version, subject, spki, attributes)
    ensures ExtractPublicKey(csr + trailing) == Ok(spki)
  {
    EncodingReadsBack([], csr, tag, info + signature, trailing);
    assert [] + csr + trailing == csr + trailing;
    var content := version + subject + spki + attributes;
    var it :| Encodes(info, it, content);
    EncodingReadsBack([], info, it, content, signature);
    assert [] + info + signature == info + signature;
    InfoReadsKey(content, version, subject, spki, attributes);
    assert [] + version == version;
  }
}
