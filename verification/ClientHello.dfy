// proxy/tls_fragment.go: the ClientHello parser, and the wire format it reads.
module ClientHello {
  import opened Bytes

  // ---------------------------------------------------------------------------
  // The wire format (section 4.1.2 of RFC 8446, section 3 of RFC 6066)
  // ---------------------------------------------------------------------------

  const SERVER_NAME_TYPE: nat := 0x0000
  const KEY_SHARE_TYPE: nat := 0x0033

  /** A server_name list is its first entry, a host name, followed by the bytes of any further entries. */
  datatype Extension =
    | ServerName(host: Octets, more: Octets)
    | KeyShare(body: Octets)
    | Other(typ: nat, body: Octets)
  {
    function Type(): nat {
      match this
      case ServerName(_, _) => SERVER_NAME_TYPE
      case KeyShare(_) => KEY_SHARE_TYPE
      case Other(t, _) => t
    }

    predicate WellFormed() {
      match this
      case ServerName(h, m) => 5 + |h| + |m| < 0x1_0000
      case KeyShare(b) => |b| < 0x1_0000
      case Other(t, b) => t < 0x1_0000 && t != SERVER_NAME_TYPE && t != KEY_SHARE_TYPE && |b| < 0x1_0000
    }

    function Data(): Octets
      requires WellFormed()
    {
      match this
      case ServerName(h, m) => U16(3 + |h| + |m|) + [0] + U16(|h|) + h + m
      case KeyShare(b) => b
      case Other(_, b) => b
    }

    function Encode(): Octets
      requires WellFormed()
    {
      U16(Type()) + U16(|Data()|) + Data()
    }

    /** The number of bytes Encode produces. */
    function Size(): nat {
      match this
      case ServerName(h, m) => 9 + |h| + |m|
      case KeyShare(b) => 4 + |b|
      case Other(_, b) => 4 + |b|
    }
  }

  predicate AllWellFormed(es: seq<Extension>) {
    forall e <- es :: e.WellFormed()
  }

  function EncodeAll(es: seq<Extension>): Octets
    requires AllWellFormed(es)
  {
    if es == [] then [] else es[0].Encode() + EncodeAll(es[1..])
  }

  datatype ExtensionBlock = Absent | Present(es: seq<Extension>)

  datatype Hello = Hello(
    version: Octets, random: Octets, session: Octets, suites: Octets, compression: Octets, block: ExtensionBlock)
  {
    predicate WellFormed() {
      && |version| == 2 && |random| == 32
      && |session| < 256 && |suites| < 0x1_0000 && |compression| < 256
      && (block.Present? ==> AllWellFormed(block.es) && |EncodeAll(block.es)| < 0x1_0000)
      && 4 + |Body()| < 0x1_0000
    }

    /** Everything before the extension block. */
    function Fixed(): Octets
      requires |session| < 256 && |suites| < 0x1_0000 && |compression| < 256
    {
      version + random + [|session|] + session + U16(|suites|) + suites + [|compression|] + compression
    }

    function Body(): Octets
      requires |session| < 256 && |suites| < 0x1_0000 && |compression| < 256
      requires block.Present? ==> AllWellFormed(block.es) && |EncodeAll(block.es)| < 0x1_0000
    {
      Fixed() + match block
                case Absent => []
                case Present(es) => U16(|EncodeAll(es)|) + EncodeAll(es)
    }

    /** One TLS record holding this handshake message; `kind` is the content type and the record version. */
    function Record(kind: Octets): Octets
      requires WellFormed() && |kind| == 3
    {
      kind + U16(4 + |Body()|) + [1] + U24(|Body()|) + Body()
    }
  }

  lemma BodySize(h: Hello, es: seq<Extension>)
    requires |h.version| == 2 && |h.random| == 32 && h.block == Present(es)
    requires |h.session| < 256 && |h.suites| < 0x1_0000 && |h.compression| < 256
    requires AllWellFormed(es) && |EncodeAll(es)| < 0x1_0000
    ensures |h.Body()| == 40 + |h.session| + |h.suites| + |h.compression| + |EncodeAll(es)|
  {
    assert |h.Fixed()| == 38 + |h.session| + |h.suites| + |h.compression|;
  }

  // ---------------------------------------------------------------------------
  // The parser
  // ---------------------------------------------------------------------------

  datatype ParseError =
    | RecordTooShort | RecordExceedsData | HandshakeTooShort | NotClientHello | HandshakeExceedsRecord
    | MandatoryFields | NoSessionId | SessionIdExceeds | NoCipherSuites | CipherSuitesExceed
    | NoCompression | CompressionExceeds | ExtensionsExceed | ExtensionExceedsBlock
    | MalformedSni | SniListMismatch | SniEntryTooShort | SniNameType | SniNameExceeds

  /** `pos` is -1 when no server_name was found. */
  datatype Parsed = Ok(pos: int, len: nat, keyShare: bool) | Err(error: ParseError)

  datatype Prelude = Bad(error: ParseError) | NoBlock | Block(start: nat, end: nat)

  /** Where the extension block lies, or why the parser gives up before reaching it. */
  function ReadPrelude(d: Octets): (p: Prelude)
    ensures p.Block? ==> 46 <= p.start <= p.end <= |d|
  {
    if |d| < 5 then Bad(RecordTooShort) else
    var recordLen := Be16(d[3], d[4]);
    if |d| < 5 + recordLen then Bad(RecordExceedsData) else
    if recordLen < 4 then Bad(HandshakeTooShort) else
    if d[5] != 1 then Bad(NotClientHello) else
    var handshakeLen := Be24(d[6], d[7], d[8]);
    if handshakeLen + 4 > recordLen then Bad(HandshakeExceedsRecord) else
    if handshakeLen < 35 then Bad(MandatoryFields) else
    var afterSession: nat := 44 + d[43] as int;
    if afterSession > |d| then Bad(SessionIdExceeds) else
    if afterSession + 2 > |d| then Bad(NoCipherSuites) else
    var afterSuites := afterSession + 2 + Be16(d[afterSession], d[afterSession + 1]);
    if afterSuites > |d| then Bad(CipherSuitesExceed) else
    if afterSuites >= |d| then Bad(NoCompression) else
    var afterCompression := afterSuites + 1 + d[afterSuites];
    if afterCompression > |d| then Bad(CompressionExceeds) else
    if afterCompression + 2 > |d| then NoBlock else
    var start := afterCompression + 2;
    var end := start + Be16(d[afterCompression], d[afterCompression + 1]);
    if end > |d| then Bad(ExtensionsExceed) else Block(start, end)
  }

  /** The first name of the server_name extension whose data is d[start..end]. */
  function ReadName(d: Octets, start: nat, end: nat): (r: Parsed)
    requires start <= end <= |d|
    ensures r.Ok? ==> start + 5 == r.pos && r.pos + r.len <= end
  {
    if end - start < 2 then Err(MalformedSni) else
    if Be16(d[start], d[start + 1]) + 2 != end - start then Err(SniListMismatch) else
    if start + 5 > end then Err(SniEntryTooShort) else
    if d[start + 2] != 0 then Err(SniNameType) else
    var nameLen := Be16(d[start + 3], d[start + 4]);
    if start + 5 + nameLen > end then Err(SniNameExceeds) else
    Ok(start + 5, nameLen, false)
  }

  function Walk(d: Octets, off: nat, end: nat, pos: int, len: nat, ks: bool): (r: Parsed)
    requires off <= end <= |d|
    decreases end - off
  {
    if off + 4 > end then Ok(pos, len, ks) else
    var typ := Be16(d[off], d[off + 1]);
    var next := off + 4 + Be16(d[off + 2], d[off + 3]);
    if next > end then Err(ExtensionExceedsBlock) else
    var ks' := ks || typ == KEY_SHARE_TYPE;
    if typ == KEY_SHARE_TYPE && pos != -1 then Ok(pos, len, true) else
    if pos == -1 && typ == SERVER_NAME_TYPE then
      var name := ReadName(d, off + 4, next);
      if name.Err? then name else
      if ks' then name.(keyShare := true) else Walk(d, next, end, name.pos, name.len, ks')
    else
      Walk(d, next, end, pos, len, ks')
  }

  function Parse(d: Octets): Parsed {
    match ReadPrelude(d)
    case Bad(e) => Err(e)
    case NoBlock => Ok(-1, 0, false)
    case Block(start, end) => Walk(d, start, end, -1, 0, false)
  }

  /** The fixed fields, skipped with one cursor. Every index is checked to be in range. */
  method SkipFixedFields(data: array<byte>) returns (p: Prelude)
    ensures p == ReadPrelude(data[..])
  {
    if data.Length < 5 { return Bad(RecordTooShort); }
    var recordLen := Be16(data[3], data[4]);
    if data.Length < 5 + recordLen { return Bad(RecordExceedsData); }
    var offset := 5;
    if recordLen < 4 { return Bad(HandshakeTooShort); }
    if data[offset] != 1 { return Bad(NotClientHello); }
    var handshakeLen := Be24(data[offset + 1], data[offset + 2], data[offset + 3]);
    if handshakeLen + 4 > recordLen { return Bad(HandshakeExceedsRecord); }
    offset := offset + 4;
    if handshakeLen < 2 + 32 + 1 { return Bad(MandatoryFields); }
    offset := offset + 2;
    offset := offset + 32;
    if offset >= data.Length { return Bad(NoSessionId); }
    var sessionLen := data[offset];
    offset := offset + 1;
    if offset + sessionLen > data.Length { return Bad(SessionIdExceeds); }
    offset := offset + sessionLen;
    if offset + 2 > data.Length { return Bad(NoCipherSuites); }
    var suitesLen := Be16(data[offset], data[offset + 1]);
    offset := offset + 2;
    if offset + suitesLen > data.Length { return Bad(CipherSuitesExceed); }
    offset := offset + suitesLen;
    if offset >= data.Length { return Bad(NoCompression); }
    var compressionLen := data[offset];
    offset := offset + 1;
    if offset + compressionLen > data.Length { return Bad(CompressionExceeds); }
    offset := offset + compressionLen;
    if offset + 2 > data.Length { return NoBlock; }
    var extTotal := Be16(data[offset], data[offset + 1]);
    offset := offset + 2;
    if offset + extTotal > data.Length { return Bad(ExtensionsExceed); }
    return Block(offset, offset + extTotal);
  }

  /** The parser as written: a cursor over the extension block that stops once both finds are made. */
  method ParseClientHello(data: array<byte>) returns (r: Parsed)
    ensures r == Parse(data[..])
  {
    var prelude := SkipFixedFields(data);
    match prelude {
      case Bad(e) => return Err(e);
      case NoBlock => return Ok(-1, 0, false);
      case Block(start, extensionsEnd) =>
        var offset, pos, ks := start, -1, false;
        var len: nat := 0;
        ghost var d := data[..];
        while offset + 4 <= extensionsEnd
          invariant start <= offset <= extensionsEnd <= data.Length
          invariant Walk(d, start, extensionsEnd, -1, 0, false) == Walk(d, offset, extensionsEnd, pos, len, ks)
          decreases extensionsEnd - offset
        {
          var extType := Be16(data[offset], data[offset + 1]);
          var extLen := Be16(data[offset + 2], data[offset + 3]);
          var extStart := offset + 4;
          var extEnd := extStart + extLen;
          if extEnd > extensionsEnd { return Err(ExtensionExceedsBlock); }
          if extType == KEY_SHARE_TYPE {
            ks := true;
            if pos != -1 { return Ok(pos, len, ks); }
          }
          if pos == -1 && extType == SERVER_NAME_TYPE {
            var name := ParseName(data, extStart, extEnd);
            if name.Err? { return name; }
            pos, len := name.pos, name.len;
            if ks { return Ok(pos, len, ks); }
          }
          offset := extEnd;
        }
        return Ok(pos, len, ks);
    }
  }

  method ParseName(data: array<byte>, extStart: nat, extEnd: nat) returns (r: Parsed)
    requires extStart <= extEnd <= data.Length
    ensures r == ReadName(data[..], extStart, extEnd)
  {
    hide Be16;
    if extEnd - extStart < 2 { return Err(MalformedSni); }
    var listLen := Be16(data[extStart], data[extStart + 1]);
    if listLen + 2 != extEnd - extStart { return Err(SniListMismatch); }
    var cursor := extStart + 2;
    if cursor + 3 > extEnd { return Err(SniEntryTooShort); }
    if data[cursor] != 0 { return Err(SniNameType); }
    var nameLen := Be16(data[cursor + 1], data[cursor + 2]);
    var nameStart := cursor + 3;
    if nameStart + nameLen > extEnd { return Err(SniNameExceeds); }
    return Ok(nameStart, nameLen, false);
  }

  // ---------------------------------------------------------------------------
  // The parser inverts the wire format
  // ---------------------------------------------------------------------------

  /** The index of the first server_name extension, or |es|. */
  function FirstName(es: seq<Extension>): (i: nat)
    ensures i <= |es|
    ensures forall j :: 0 <= j < i ==> !es[j].ServerName?
    ensures i < |es| ==> es[i].ServerName?
  {
    if es == [] || es[0].ServerName? then 0 else 1 + FirstName(es[1..])
  }

  predicate HasKeyShare(es: seq<Extension>) {
    exists e <- es :: e.KeyShare?
  }

  /** The offset of the block in the record of h. */
  function BlockStart(h: Hello): nat
    requires h.WellFormed()
  {
    9 + |h.Fixed()| + 2
  }

  lemma PreludeOfFields(d: Octets, session: nat, suites: nat, compression: nat)
    requires |d| >= 47 + session + suites + compression
    requires Be16(d[3], d[4]) == |d| - 5 && d[5] == 1 && Be24(d[6], d[7], d[8]) == |d| - 9
    requires d[43] == session
    requires Be16(d[44 + session], d[45 + session]) == suites
    requires d[46 + session + suites] == compression
    ensures var f := 47 + session + suites + compression;
      ReadPrelude(d) ==
      if f + 2 > |d| then NoBlock else
      var end := f + 2 + Be16(d[f], d[f + 1]);
      if end > |d| then Bad(ExtensionsExceed) else Block(f + 2, end)
  {
    hide Be16, Be24;
  }

  lemma FixedFieldsAt(h: Hello, d: Octets)
    requires h.WellFormed() && At(d, 9, h.Fixed())
    ensures var a, b, c := |h.session|, |h.suites|, |h.compression|;
      && |h.Fixed()| == 38 + a + b + c
      && |d| >= 47 + a + b + c
      && d[43] == a && Be16(d[44 + a], d[45 + a]) == b && d[46 + a + b] == c
  {
    var sa := h.version + h.random;
    var sb := sa + [|h.session|] + h.session;
    var sc := sb + U16(|h.suites|) + h.suites;
    AtSplit(d, 9, sc + [|h.compression|], h.compression);
    AtSplit(d, 9, sc, [|h.compression|]);
    AtIndex(d, 9 + |sc|, [|h.compression|], 0);
    AtSplit(d, 9, sb + U16(|h.suites|), h.suites);
    AtSplit(d, 9, sb, U16(|h.suites|));
    AtU16(d, 9 + |sb|, |h.suites|);
    AtSplit(d, 9, sa + [|h.session|], h.session);
    AtSplit(d, 9, sa, [|h.session|]);
    AtIndex(d, 9 + |sa|, [|h.session|], 0);
  }

  /** The record header and the handshake header. */
  lemma HeadersAt(kind: Octets, n: nat, body: Octets)
    requires |kind| == 3 && |body| == n && 4 + n < 0x1_0000
    ensures var d := kind + U16(4 + n) + [1] + U24(n) + body;
      && |d| == 9 + n && At(d, 9, body)
      && Be16(d[3], d[4]) == 4 + n && d[5] == 1 && Be24(d[6], d[7], d[8]) == n
  {
    var d := kind + U16(4 + n) + [1] + U24(n) + body;
    assert d[0..0 + |d|] == d;
    AtSplit(d, 0, kind + U16(4 + n) + [1] + U24(n), body);
    AtSplit(d, 0, kind + U16(4 + n) + [1], U24(n));
    AtU24(d, 6, n);
    AtSplit(d, 0, kind + U16(4 + n), [1]);
    AtIndex(d, 5, [1], 0);
    AtSplit(d, 0, kind, U16(4 + n));
    AtU16(d, 3, 4 + n);
  }

  /** The prelude of any bytes with a full record header, the fixed fields of h and then `tail`. */
  lemma PreludeOfTail(h: Hello, d: Octets, tail: Octets)
    requires h.WellFormed() && At(d, 9, h.Fixed() + tail) && |d| == 9 + |h.Fixed()| + |tail|
    requires Be16(d[3], d[4]) == |d| - 5 && d[5] == 1 && Be24(d[6], d[7], d[8]) == |d| - 9
    ensures At(d, 9 + |h.Fixed()|, tail)
    ensures var f := 9 + |h.Fixed()|;
      ReadPrelude(d) ==
      if f + 2 > |d| then NoBlock else
      var end := f + 2 + Be16(d[f], d[f + 1]);
      if end > |d| then Bad(ExtensionsExceed) else Block(f + 2, end)
  {
    AtSplit(d, 9, h.Fixed(), tail);
    FixedFieldsAt(h, d);
    PreludeOfFields(d, |h.session|, |h.suites|, |h.compression|);
  }

  lemma PreludeOfBlock(h: Hello, d: Octets, all: Octets)
    requires h.WellFormed() && |all| < 0x1_0000
    requires At(d, 9, h.Fixed() + (U16(|all|) + all)) && |d| == 11 + |h.Fixed()| + |all|
    requires Be16(d[3], d[4]) == |d| - 5 && d[5] == 1 && Be24(d[6], d[7], d[8]) == |d| - 9
    ensures ReadPrelude(d) == Block(11 + |h.Fixed()|, |d|)
    ensures At(d, 11 + |h.Fixed()|, all)
  {
    PreludeOfTail(h, d, U16(|all|) + all);
    AtSplit(d, 9 + |h.Fixed()|, U16(|all|), all);
    AtU16(d, 9 + |h.Fixed()|, |all|);
  }

  lemma {:induction false} NameOfServerName(d: Octets, start: nat, host: Octets, more: Octets)
    requires 5 + |host| + |more| < 0x1_0000
    requires At(d, start, ServerName(host, more).Data())
    ensures ReadName(d, start, start + 5 + |host| + |more|) == Ok(start + 5, |host|, false)
    ensures At(d, start + 5, host)
  {
    var n := 3 + |host| + |more|;
    AtSplit(d, start, U16(n) + [0] + U16(|host|) + host, more);
    AtSplit(d, start, U16(n) + [0] + U16(|host|), host);
    AtSplit(d, start, U16(n) + [0], U16(|host|));
    AtU16(d, start + 3, |host|);
    AtSplit(d, start, U16(n), [0]);
    AtU16(d, start, n);
    AtIndex(d, start + 2, [0], 0);
  }

  // ---------------------------------------------------------------------------
  // The walk over an encoded block
  // ---------------------------------------------------------------------------

  /** At `off` the parser reads the header of e, and the name in it if it is a server_name. */
  predicate HeaderReads(d: Octets, off: nat, e: Extension) {
    var next := off + e.Size();
    && off + 4 <= next <= |d|
    && Be16(d[off], d[off + 1]) == e.Type()
    && off + 4 + Be16(d[off + 2], d[off + 3]) == next
    && (e.ServerName? ==>
          ReadName(d, off + 4, next) == Ok(off + 9, |e.host|, false) && At(d, off + 9, e.host))
  }

  /** The bytes d[off..end] are laid out as the extensions es, one after the other. */
  predicate Lays(d: Octets, off: nat, end: nat, es: seq<Extension>)
    requires off <= end <= |d|
    decreases |es|
  {
    if es == [] then off == end
    else
      var next := off + es[0].Size();
      next <= end && HeaderReads(d, off, es[0]) && Lays(d, next, end, es[1..])
  }

  lemma EncodedExtension(d: Octets, off: nat, e: Extension)
    requires e.WellFormed() && At(d, off, e.Encode())
    ensures |e.Encode()| == e.Size() && HeaderReads(d, off, e)
  {
    var t, b := e.Type(), e.Data();
    AtSplit(d, off, U16(t) + U16(|b|), b);
    AtSplit(d, off, U16(t), U16(|b|));
    AtU16(d, off, t);
    AtU16(d, off + 2, |b|);
    if e.ServerName? {
      NameOfServerName(d, off + 4, e.host, e.more);
    }
  }

  lemma {:induction false} EncodedBlockLays(d: Octets, off: nat, end: nat, es: seq<Extension>)
    requires AllWellFormed(es) && At(d, off, EncodeAll(es)) && end == off + |EncodeAll(es)|
    ensures end <= |d| && Lays(d, off, end, es)
    decreases |es|
  {
    hide *;
    if es == [] {
      NothingLays(d, off);
    } else {
      FirstOfBlock(d, off, es);
      EncodedExtension(d, off, es[0]);
      EncodedBlockLays(d, off + es[0].Size(), end, es[1..]);
      ConsLays(d, off, end, es);
    }
  }

  lemma NothingLays(d: Octets, off: nat)
    requires At(d, off, EncodeAll([]))
    ensures off <= |d| && |EncodeAll([])| == 0 && Lays(d, off, off, [])
  {
  }

  lemma ConsLays(d: Octets, off: nat, end: nat, es: seq<Extension>)
    requires es != [] && off <= off + es[0].Size() <= end <= |d|
    requires HeaderReads(d, off, es[0]) && Lays(d, off + es[0].Size(), end, es[1..])
    ensures Lays(d, off, end, es)
  {
  }

  lemma FirstOfBlock(d: Octets, off: nat, es: seq<Extension>)
    requires es != [] && AllWellFormed(es) && At(d, off, EncodeAll(es))
    ensures es[0].WellFormed() && AllWellFormed(es[1..])
    ensures |EncodeAll(es)| == |es[0].Encode()| + |EncodeAll(es[1..])|
    ensures At(d, off, es[0].Encode()) && At(d, off + |es[0].Encode()|, EncodeAll(es[1..]))
  {
    var first, rest := es[0].Encode(), EncodeAll(es[1..]);
    assert EncodeAll(es) == first + rest;
    AtSplit(d, off, first, rest);
  }

  lemma HasKeyShareStep(es: seq<Extension>)
    requires es != []
    ensures HasKeyShare(es) == (es[0].KeyShare? || HasKeyShare(es[1..]))
  {
    assert es == [es[0]] + es[1..];
  }

  /** After a name has been found, only the key_share flag can still change. */
  lemma {:induction false} WalkAfterName(d: Octets, off: nat, end: nat, es: seq<Extension>, pos: nat, len: nat)
    requires off <= end <= |d| && AllWellFormed(es) && Lays(d, off, end, es)
    ensures Walk(d, off, end, pos, len, false) == Ok(pos, len, HasKeyShare(es))
    decreases |es|
  {
    if es != [] {
      HasKeyShareStep(es);
      assert es[0].WellFormed();
      if !es[0].KeyShare? {
        WalkAfterName(d, off + es[0].Size(), end, es[1..], pos, len);
      }
    }
  }

  /** The offset of the first name in a block that starts at `off`. */
  function NameOffset(es: seq<Extension>, off: nat): (pos: nat)
    ensures pos >= off + 9
  {
    if es == [] || es[0].ServerName? then off + 9 else NameOffset(es[1..], off + es[0].Size())
  }

  /** Walking an encoded block from the start finds its first name and its key_share. */
  lemma {:induction false} WalkFinds(d: Octets, off: nat, end: nat, es: seq<Extension>, ks: bool)
    requires off <= end <= |d| && AllWellFormed(es) && Lays(d, off, end, es)
    ensures var i := FirstName(es);
      && Walk(d, off, end, -1, 0, ks) ==
         (if i == |es| then Ok(-1, 0, ks || HasKeyShare(es))
          else Ok(NameOffset(es, off), |es[i].host|, ks || HasKeyShare(es)))
      && (i < |es| ==> At(d, NameOffset(es, off), es[i].host))
    decreases |es|
  {
    if es != [] {
      HasKeyShareStep(es);
      assert es[0].WellFormed();
      var next := off + es[0].Size();
      if es[0].ServerName? {
        WalkAfterName(d, next, end, es[1..], off + 9, |es[0].host|);
      } else {
        WalkFinds(d, next, end, es[1..], ks || es[0].KeyShare?);
      }
    }
  }

  lemma RecordHeaders(h: Hello, kind: Octets)
    requires h.WellFormed() && |kind| == 3
    ensures var d := h.Record(kind);
      && |d| == 9 + |h.Body()| && At(d, 9, h.Body())
      && Be16(d[3], d[4]) == |d| - 5 && d[5] == 1 && Be24(d[6], d[7], d[8]) == |d| - 9
  {
    hide Be16, Be24, U16, U24;
    HeadersAt(kind, |h.Body()|, h.Body());
  }

  lemma ParseOfBlock(h: Hello, d: Octets, es: seq<Extension>)
    requires h.WellFormed() && h.block == Present(es)
    requires |d| == 9 + |h.Body()| && At(d, 9, h.Body())
    requires Be16(d[3], d[4]) == |d| - 5 && d[5] == 1 && Be24(d[6], d[7], d[8]) == |d| - 9
    ensures Parse(d) == Walk(d, BlockStart(h), |d|, -1, 0, false)
    ensures Lays(d, BlockStart(h), |d|, es)
  {
    hide Be16, U16, Be24, At, Lays, Walk, EncodeAll, ReadPrelude;
    BodyOfBlock(h, es);
    PreludeOfBlock(h, d, EncodeAll(es));
    EncodedBlockLays(d, BlockStart(h), |d|, es);
  }

  lemma BodyOfBlock(h: Hello, es: seq<Extension>)
    requires h.WellFormed() && h.block == Present(es)
    ensures |EncodeAll(es)| < 0x1_0000
    ensures h.Body() == h.Fixed() + (U16(|EncodeAll(es)|) + EncodeAll(es))
    ensures |h.Body()| == 2 + |h.Fixed()| + |EncodeAll(es)|
  {
  }

  /** Parsing a serialized ClientHello finds its first server_name entry and its key_share, and nothing else. */
  lemma ParserInvertsSerializer(h: Hello, kind: Octets)
    requires h.WellFormed() && |kind| == 3
    ensures h.block.Absent? ==> Parse(h.Record(kind)) == Ok(-1, 0, false)
    ensures h.block.Present? ==>
      var es := h.block.es;
      var i := FirstName(es);
      var pos := NameOffset(es, BlockStart(h));
      if i == |es| then Parse(h.Record(kind)) == Ok(-1, 0, HasKeyShare(es))
      else Parse(h.Record(kind)) == Ok(pos, |es[i].host|, HasKeyShare(es)) && At(h.Record(kind), pos, es[i].host)
  {
    var d := h.Record(kind);
    RecordHeaders(h, kind);
    if h.block.Present? {
      ParseOfBlock(h, d, h.block.es);
      WalkFinds(d, BlockStart(h), |d|, h.block.es, false);
    } else {
      PreludeOfTail(h, d, []);
    }
  }

  // ---------------------------------------------------------------------------
  // What a successful parse of arbitrary bytes means
  // ---------------------------------------------------------------------------

  /** Hopping from extension header to extension header, starting at `off`, visits a header at `at`. */
  predicate Visits(d: Octets, off: nat, end: nat, at: nat)
    requires off <= end <= |d|
    decreases end - off
  {
    && off + 4 <= end
    && (off == at ||
        var next := off + 4 + Be16(d[off + 2], d[off + 3]);
        next <= end && Visits(d, next, end, at))
  }

  lemma {:induction false} VisitsBounds(d: Octets, off: nat, end: nat, at: nat)
    requires off <= end <= |d| && Visits(d, off, end, at)
    ensures off <= at && at + 4 <= end
    decreases end - off
  {
    if off != at {
      VisitsBounds(d, off + 4 + Be16(d[off + 2], d[off + 3]), end, at);
    }
  }

  predicate TypeAt(d: Octets, at: nat, typ: nat) {
    at + 4 <= |d| && Be16(d[at], d[at + 1]) == typ
  }

  /** The reading (pos, len) is the first entry of the first server_name extension visited from `off`. */
  predicate FirstNameVisited(d: Octets, off: nat, end: nat, pos: int, len: nat)
    requires off <= end <= |d|
  {
    && pos >= off + 9 && pos + len <= end
    && Visits(d, off, end, pos - 9) && TypeAt(d, pos - 9, SERVER_NAME_TYPE)
    && d[pos - 3] == 0 && Be16(d[pos - 2], d[pos - 1]) == len
    && forall at: nat :: Visits(d, off, end, at) && TypeAt(d, at, SERVER_NAME_TYPE) ==> pos - 9 <= at
  }

  /** What the outcome r says about the extensions visited from `off`; (pos, len) is a name found before, if any. */
  ghost predicate Sound(d: Octets, off: nat, end: nat, pos: int, len: nat, ks: bool, r: Parsed)
    requires off <= end <= |d|
  {
    r.Ok? ==>
      && (pos != -1 ==> r.pos == pos && r.len == len)
      && (pos == -1 && r.pos != -1 ==> FirstNameVisited(d, off, end, r.pos, r.len))
      && (r.pos == -1 ==> forall at: nat :: Visits(d, off, end, at) ==> !TypeAt(d, at, SERVER_NAME_TYPE))
      && (r.keyShare <==> ks || exists at: nat :: Visits(d, off, end, at) && TypeAt(d, at, KEY_SHARE_TYPE))
  }

  /** The header at `off` is visited first, and then those behind its extension. */
  lemma VisitsStep(d: Octets, off: nat, end: nat, next: nat)
    requires off + 4 <= end <= |d| && next == off + 4 + Be16(d[off + 2], d[off + 3]) <= end
    ensures forall at: nat :: Visits(d, off, end, at) <==> at == off || Visits(d, next, end, at)
    ensures forall at: nat :: Visits(d, next, end, at) ==> next <= at
  {
    forall at: nat | Visits(d, next, end, at) ensures next <= at {
      VisitsBounds(d, next, end, at);
    }
  }

  /** An extension that is not the name looked for. */
  lemma SkipIsSound(d: Octets, off: nat, end: nat, next: nat, pos: int, len: nat, ks: bool, r: Parsed)
    requires off + 4 <= end <= |d| && next == off + 4 + Be16(d[off + 2], d[off + 3]) <= end && pos >= -1
    requires pos != -1 || !TypeAt(d, off, SERVER_NAME_TYPE)
    requires Sound(d, next, end, pos, len, ks || TypeAt(d, off, KEY_SHARE_TYPE), r)
    ensures Sound(d, off, end, pos, len, ks, r)
  {
    VisitsStep(d, off, end, next);
    if r.Ok? && TypeAt(d, off, KEY_SHARE_TYPE) {
      assert Visits(d, off, end, off);
    }
  }

  /** The extension that holds the name. */
  lemma NameIsSound(d: Octets, off: nat, end: nat, next: nat, name: Parsed, ks: bool, r: Parsed)
    requires off + 4 <= end <= |d| && next == off + 4 + Be16(d[off + 2], d[off + 3]) <= end
    requires TypeAt(d, off, SERVER_NAME_TYPE) && name == ReadName(d, off + 4, next) && name.Ok?
    requires Sound(d, next, end, name.pos, name.len, ks, r)
    ensures Sound(d, off, end, -1, 0, ks, r)
  {
    VisitsStep(d, off, end, next);
    if r.Ok? {
      assert Visits(d, off, end, off);
      assert FirstNameVisited(d, off, end, r.pos, r.len);
    }
  }

  lemma {:induction false} WalkSound(d: Octets, off: nat, end: nat, pos: int, len: nat, ks: bool)
    requires off <= end <= |d| && pos >= -1 && (pos == -1 ==> len == 0)
    ensures Sound(d, off, end, pos, len, ks, Walk(d, off, end, pos, len, ks))
    decreases end - off
  {
    if off + 4 <= end {
      var typ := Be16(d[off], d[off + 1]);
      var next := off + 4 + Be16(d[off + 2], d[off + 3]);
      assert TypeAt(d, off, typ);
      if next <= end {
        var r := Walk(d, off, end, pos, len, ks);
        var ks' := ks || typ == KEY_SHARE_TYPE;
        if typ == KEY_SHARE_TYPE && pos != -1 {
          assert Visits(d, off, end, off);
        } else if pos == -1 && typ == SERVER_NAME_TYPE {
          var name := ReadName(d, off + 4, next);
          if name.Ok? {
            WalkSound(d, next, end, name.pos, name.len, ks');
            NameIsSound(d, off, end, next, name, ks, r);
          }
        } else {
          WalkSound(d, next, end, pos, len, ks');
          SkipIsSound(d, off, end, next, pos, len, ks, r);
        }
      }
    }
  }

  /**
   * On any bytes at all: a reported name is the first entry of the first server_name extension reachable by
   * hopping over the block, no name is reported only when there is no such extension, and the key_share flag
   * is exactly the presence of a key_share extension.
   */
  lemma ParseSound(d: Octets)
    requires Parse(d).Ok?
    ensures var r := Parse(d);
      match ReadPrelude(d)
      case Bad(_) => false
      case NoBlock => r == Ok(-1, 0, false)
      case Block(start, end) =>
        && (r.pos == -1 || FirstNameVisited(d, start, end, r.pos, r.len))
        && (r.pos == -1 ==> forall at: nat :: Visits(d, start, end, at) ==> !TypeAt(d, at, SERVER_NAME_TYPE))
        && (r.keyShare <==> exists at: nat :: Visits(d, start, end, at) && TypeAt(d, at, KEY_SHARE_TYPE))
  {
    match ReadPrelude(d)
    case Bad(_) =>
    case NoBlock =>
    case Block(start, end) => WalkSound(d, start, end, -1, 0, false);
  }

  // ---------------------------------------------------------------------------
  // What the parser refuses
  // ---------------------------------------------------------------------------

  /** The record is all there and holds a ClientHello of at least the mandatory length. */
  predicate HeadersFit(d: Octets) {
    && |d| >= 9 && |d| >= 5 + Be16(d[3], d[4]) && d[5] == 1
    && 35 <= Be24(d[6], d[7], d[8]) <= Be16(d[3], d[4]) - 4
  }

  /** The three fields of variable length have these lengths and end inside the bytes. */
  predicate FieldsFit(d: Octets, session: nat, suites: nat, compression: nat) {
    && |d| >= 47 + session + suites + compression
    && d[43] == session
    && Be16(d[44 + session], d[45 + session]) == suites
    && d[46 + session + suites] == compression
  }

  /** Behind them come fewer than two bytes, or an extension block that ends inside the bytes. */
  predicate BlockFits(d: Octets, f: nat) {
    f + 2 > |d| || f + 2 + Be16(d[f], d[f + 1]) <= |d|
  }

  predicate PreludeFits(d: Octets) {
    && HeadersFit(d)
    && 44 <= |d|
    && var a: nat := d[43];
       46 + a <= |d| &&
       var b := Be16(d[44 + a], d[45 + a]);
       46 + a + b < |d| &&
       var c: nat := d[46 + a + b];
       FieldsFit(d, a, b, c) && BlockFits(d, 47 + a + b + c)
  }

  /** What comes before the extensions is refused exactly when some length in it does not fit. */
  lemma PreludeRefusedIff(d: Octets)
    ensures ReadPrelude(d).Bad? <==> !PreludeFits(d)
    ensures PreludeFits(d) <==> HeadersFit(d) && exists a: nat, b: nat, c: nat ::
                FieldsFit(d, a, b, c) && BlockFits(d, 47 + a + b + c)
  {
    hide Be16, Be24;
    if PreludeFits(d) {
      var a: nat := d[43];
      var b := Be16(d[44 + a], d[45 + a]);
      var c: nat := d[46 + a + b];
      assert FieldsFit(d, a, b, c);
    }
    if a: nat, b: nat, c: nat :| FieldsFit(d, a, b, c) && BlockFits(d, 47 + a + b + c) {
      assert HeadersFit(d) ==> PreludeFits(d);
    }
  }

  /** The stretch is the data of a server_name extension with this host name. */
  predicate NameData(d: Octets, start: nat, end: nat, host: Octets, more: Octets) {
    5 + |host| + |more| < 0x1_0000 && end == start + 5 + |host| + |more| && At(d, start, ServerName(host, more).Data())
  }

  lemma NameBytes(d: Octets, start: nat, end: nat)
    requires start <= end <= |d| && ReadName(d, start, end).Ok?
    ensures start + 5 + Be16(d[start + 3], d[start + 4]) <= end && d[start + 2] == 0
    ensures Be16(d[start], d[start + 1]) + 2 == end - start
  {
    hide Be16;
  }

  lemma NameParts(d: Octets, start: nat, end: nat, n: nat)
    requires start + 5 + n <= end <= |d| && d[start + 2] == 0
    ensures d[start..end] ==
      [d[start], d[start + 1]] + [0] + [d[start + 3], d[start + 4]]
      + d[start + 5..start + 5 + n] + d[start + 5 + n..end]
  {
  }

  lemma NameAsData(d: Octets, start: nat, end: nat) returns (host: Octets, more: Octets)
    requires start <= end <= |d| && end - start < 0x1_0000 && ReadName(d, start, end).Ok?
    ensures NameData(d, start, end, host, more)
  {
    NameBytes(d, start, end);
    hide Be16, U16, ReadName;
    var n := Be16(d[start + 3], d[start + 4]);
    host, more := d[start + 5..start + 5 + n], d[start + 5 + n..end];
    BigEndianRoundTrip(d[start], d[start + 1]);
    BigEndianRoundTrip(d[start + 3], d[start + 4]);
    DataFrom(host, more, [d[start], d[start + 1]], [d[start + 3], d[start + 4]]);
    NameParts(d, start, end, n);
  }

  lemma DataFrom(host: Octets, more: Octets, list: Octets, name: Octets)
    requires 5 + |host| + |more| < 0x1_0000 && U16(3 + |host| + |more|) == list && U16(|host|) == name
    ensures ServerName(host, more).WellFormed()
    ensures ServerName(host, more).Data() == list + [0] + name + host + more
  {
    hide U16;
  }

  lemma DataIsName(d: Octets, start: nat, end: nat, host: Octets, more: Octets)
    requires end <= |d| && NameData(d, start, end, host, more)
    ensures start <= end && ReadName(d, start, end).Ok?
  {
    hide ReadName, At, U16;
    NameOfServerName(d, start, host, more);
  }

  /** The data of a server_name extension is read exactly when it encodes a host name, with more behind it or not. */
  lemma NameReadIff(d: Octets, start: nat, end: nat)
    requires start <= end <= |d| && end - start < 0x1_0000
    ensures ReadName(d, start, end).Ok? <==>
      exists host: Octets, more: Octets :: NameData(d, start, end, host, more)
  {
    hide ReadName, NameData;
    if ReadName(d, start, end).Ok? {
      var host, more := NameAsData(d, start, end);
    }
    if host: Octets, more: Octets :| NameData(d, start, end, host, more) {
      DataIsName(d, start, end, host, more);
    }
  }

  /** The numbers by which the parser knows the extensions, read from the wire. */
  lemma TypesOnTheWire(e: Extension)
    requires e.WellFormed()
    ensures |e.Encode()| >= 4
    ensures Be16(e.Encode()[0], e.Encode()[1]) ==
      match e
      case ServerName(_, _) => 0
      case KeyShare(_) => 51
      case Other(t, _) => t
  {
    hide Be16, U16;
    var d := e.Encode();
    assert d[0..0 + |d|] == d;
    EncodedExtension(d, 0, e);
  }
}
