/** The tracker handshake: version 1 is six bytes, version 2 adds two padded credentials. */
module TrackerHandshake {
  import opened Endian
  import opened Codec
  import opened Layouts

  datatype Handshake = Handshake(version: u16, login: Bytes, password: Bytes)

  const HTRK: Bytes := [0x48, 0x54, 0x52, 0x4B]

  const FIELD: Width := 32

  /** Two 32-byte fields, each a length byte, at most 31 characters, and padding. */
  const CREDENTIALS := Pair(PaddedName(FIELD, false), PaddedName(FIELD, false))

  function Clamp(name: Bytes): (r: Bytes)
    ensures |r| <= 31 && r <= name && (|name| <= 31 ==> r == name)
  {
    name[..Min(|name|, 31)]
  }

  /** Only version 2 carries the credentials. */
  function Encoding(version: u16, login: Bytes, password: Bytes): Bytes {
    HTRK + WriteU16be(version) + (if version == 2 then CREDENTIALS.write((login, password)) else [])
  }

  function Decoding(bytes: Bytes): Result<Handshake> {
    if |bytes| < 6 then Err(Truncated)
    else if bytes[..4] != HTRK then Err(WrongFormatTag)
    else
      var version := ReadU16be(bytes[4..]);
      if version == 1 then if |bytes| != 6 then Err(TrailingBytes) else Ok(Handshake(1, [], []))
      else if version != 2 then Err(UnsupportedVersion)
      else if |bytes| < 70 then Err(Truncated)
      else if |bytes| > 70 then Err(TrailingBytes)
      else
        var fields := Whole(CREDENTIALS, 0, bytes[6..]);
        if fields.Err? then Err(fields.error) else Ok(Handshake(2, fields.value.0, fields.value.1))
  }

  lemma CredentialsLawful()
    ensures Lawful(CREDENTIALS)
    ensures forall p :: CREDENTIALS.fits(p) <==> |p.0| <= 31 && |p.1| <= 31
  {
    hide Lawful;
    PaddedNameLawful(FIELD, false);
    PairLawful(PaddedName(FIELD, false), PaddedName(FIELD, false));
  }

  // ------------------------------------------------------------------
  // The code
  // ------------------------------------------------------------------

  /** One credential, laid into a zeroed buffer. */
  method BuildField(name: Bytes) returns (field: Bytes)
    ensures field == PutName(FIELD, name)
  {
    var size := Min(|name|, 31);
    var buffer := new byte[32](_ => 0);
    buffer[0] := size;
    var i := 0;
    while i < size
      invariant 0 <= i <= size
      invariant buffer[..] == [size] + name[..i] + Zeros(31 - i)
    {
      buffer[1 + i] := name[i];
      i := i + 1;
    }
    field := buffer[..];
  }

  method Encode(version: u16, login: Bytes, password: Bytes) returns (out: Bytes)
    ensures out == Encoding(version, login, password)
  {
    out := HTRK + WriteU16be(version);
    if version == 2 {
      var field := BuildField(login);
      out := out + field;
      field := BuildField(password);
      out := out + field;
    }
  }

  /** One credential taken from its field, the length checked first. */
  method ParseField(field: Bytes) returns (r: Result<Bytes>)
    requires |field| == 32
    ensures r.Err? ==> PaddedName(FIELD, false).read(field) == Err(r.error)
    ensures r.Ok? ==> PaddedName(FIELD, false).read(field) == Ok((r.value, []))
  {
    var length: int := field[0];
    if length > 31 {
      return Err(Truncated);
    }
    assert field[32..] == [];
    r := Ok(field[1..1 + length]);
  }

  lemma FieldsRead(block: Bytes)
    requires |block| == 64
    ensures var login := TakeName(FIELD, false, block[..32]);
            var password := TakeName(FIELD, false, block[32..]);
            Whole(CREDENTIALS, 0, block) ==
            if login.Err? then Err(login.error)
            else if password.Err? then Err(password.error)
            else Ok((login.value.0, password.value.0))
  {
    assert block[32..][32..] == [];
    assert block[..32][1..1 + Min(block[0], 31)] == block[1..1 + Min(block[0], 31)];
  }

  method Decode(bytes: Bytes) returns (r: Result<Handshake>)
    ensures r == Decoding(bytes)
    ensures |bytes| >= 6 && bytes[..4] != [0x48, 0x54, 0x52, 0x4B] ==> r == Err(WrongFormatTag)
  {
    hide ReadU16be, Whole, TakeName;
    if |bytes| < 6 {
      return Err(Truncated);
    }
    if bytes[..4] != HTRK {
      return Err(WrongFormatTag);
    }
    var version := ReadU16be(bytes[4..]);
    if version == 1 {
      if |bytes| != 6 {
        return Err(TrailingBytes);
      }
      return Ok(Handshake(1, [], []));
    }
    if version != 2 {
      return Err(UnsupportedVersion);
    }
    if |bytes| < 70 {
      return Err(Truncated);
    }
    if |bytes| > 70 {
      return Err(TrailingBytes);
    }
    FieldsRead(bytes[6..]);
    assert bytes[6..][..32] == bytes[6..38] && bytes[6..][32..] == bytes[38..70];
    var login := ParseField(bytes[6..38]);
    if login.Err? {
      return Err(login.error);
    }
    var password := ParseField(bytes[38..70]);
    if password.Err? {
      return Err(password.error);
    }
    r := Ok(Handshake(2, login.value, password.value));
  }

  // ------------------------------------------------------------------
  // What survives
  // ------------------------------------------------------------------

  /** What the other side learns: version 2 with the credentials clamped, version 1 without, nothing else. */
  lemma DecodeUndoesEncode(version: u16, login: Bytes, password: Bytes)
    ensures Decoding(Encoding(version, login, password)) ==
            if version == 1 then Ok(Handshake(1, [], []))
            else if version == 2 then Ok(Handshake(2, Clamp(login), Clamp(password)))
            else Err(UnsupportedVersion)
  {
    hide ReadU16be, WriteU16be, Whole, Lawful, Writes, PutName, CREDENTIALS;
    var tail := if version == 2 then CREDENTIALS.write((login, password)) else [];
    var b := HTRK + WriteU16be(version) + tail;
    assert b[..4] == HTRK && b[4..] == WriteU16be(version) + tail;
    ReadWriteU16(version, tail);
    if version == 2 {
      CredentialsLawful();
      ClampedWrites(login, password);
      var p := (Clamp(login), Clamp(password));
      assert b[6..] == CREDENTIALS.write(p);
      WritesItself(CREDENTIALS, p);
      WholeLaws(CREDENTIALS, 0, p, CREDENTIALS.write(p), 0, []);
    }
  }

  lemma ClampedWrites(login: Bytes, password: Bytes)
    ensures CREDENTIALS.write((login, password)) == CREDENTIALS.write((Clamp(login), Clamp(password)))
    ensures |CREDENTIALS.write((login, password))| == 64
  {
    assert PutName(FIELD, login) == PutName(FIELD, Clamp(login));
    assert PutName(FIELD, password) == PutName(FIELD, Clamp(password));
  }

  /** A handshake cut short is truncated, and nothing may follow it. */
  lemma NoPrefixNoExtension(version: u16, login: Bytes, password: Bytes, n: nat, more: Bytes)
    requires version == 1 || version == 2
    ensures var b := Encoding(version, login, password);
            && (n < |b| ==> Decoding(b[..n]) == Err(Truncated))
            && (more != [] ==> Decoding(b + more) == Err(TrailingBytes))
  {
    hide ReadU16be, WriteU16be, Whole, CREDENTIALS;
    var tail := if version == 2 then CREDENTIALS.write((login, password)) else [];
    var b := HTRK + WriteU16be(version) + tail;
    ClampedWrites(login, password);
    assert (b + more)[..4] == HTRK && (b + more)[4..] == WriteU16be(version) + (tail + more);
    ReadWriteU16(version, tail + more);
    if 6 <= n < |b| {
      assert b[..n][..4] == HTRK && b[..n][4..] == WriteU16be(version) + tail[..n - 6];
      ReadWriteU16(version, tail[..n - 6]);
    }
  }

  /** The bytes of a version 2 handshake that are looked at: all but the padding behind each credential. */
  function Meaning(h: Handshake): seq<Care> {
    Kept(6) + NameCares(FIELD, false, h.login) + NameCares(FIELD, false, h.password)
  }

  /** Encoding what was decoded changes padding only, and is read as the same handshake. */
  lemma EncodeUndoesDecode(b: Bytes)
    requires Decoding(b).Ok?
    ensures var h := Decoding(b).value;
            var again := Encoding(h.version, h.login, h.password);
            && (h.version == 1 ==> again == b)
            && (h.version == 2 ==> Agreed(Meaning(h), b, again))
            && Decoding(again) == Ok(h)
  {
    hide ReadU16be, WriteU16be, Whole, Lawful, Agreed, PutName, NameCares;
    var h := Decoding(b).value;
    WriteReadU16(b[4..]);
    assert b[4..][..2] == b[4..6];
    var head := HTRK + WriteU16be(h.version);
    assert head == b[..6];
    DecodeUndoesEncode(h.version, h.login, h.password);
    if h.version == 2 {
      CredentialsLawful();
      WholeReadsOnlyWritten(CREDENTIALS, 0, b[6..]);
      var p := (h.login, h.password);
      var cares := NameCares(FIELD, false, h.login) + NameCares(FIELD, false, h.password);
      AgreedExactly(b[..6], head);
      AgreedSplits(Kept(6), cares, b, head, CREDENTIALS.write(p));
      assert Meaning(h) == Kept(6) + cares;
    } else {
      assert b == b[..6];
    }
  }

  /** One credential written out: its length, at most 31 of its bytes, zeros up to 32. */
  function Field(name: Bytes): Bytes {
    var n := Min(|name|, 31);
    [n] + name[..n] + Zeros(31 - n)
  }

  /** The encoding written out: 'HTRK', the version, and for version 2 the login and then the password. */
  lemma EncodingIs(version: u16, login: Bytes, password: Bytes)
    ensures Encoding(version, login, password) ==
            [0x48, 0x54, 0x52, 0x4B] + WriteU16be(version)
            + if version == 2 then Field(login) + Field(password) else []
  {
    hide WriteU16be;
  }
}
