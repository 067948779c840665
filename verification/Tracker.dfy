/** Tracker registrations and the tracker handshake. */
module Tracker {
  import opened Endian
  import opened Codec
  import opened Layouts
  import opened ServerLists

  // ------------------------------------------------------------------
  // Registrations
  // ------------------------------------------------------------------

  datatype Registration = Registration(
    kind: u16, port: u16, users: u16, flags: u16, passId: u32, name: Bytes, description: Bytes, password: Bytes)

  const ADD: u16 := 1
  const REMOVE: u16 := 2

  const KIND := Where(U16, (k: nat) => k == ADD || k == REMOVE, WrongFormatTag)

  function Fixed(): Codec<(nat, ((nat, (nat, nat)), nat))> {
    Pair(KIND, Pair(Numbers(), U32))
  }

  function Texts(): Codec<(Bytes, (Bytes, Bytes))> {
    Pair(TEXT, Pair(TEXT, TEXT))
  }

  function ToRegistration(p: ((nat, ((nat, (nat, nat)), nat)), (Bytes, (Bytes, Bytes)))): Registration {
    var ((kind, ((port, (users, flags)), passId)), (name, (description, password))) := p;
    Registration(Clip16(kind), Clip16(port), Clip16(users), Clip16(flags), Clip32(passId),
                 name, description, password)
  }

  function FromRegistration(r: Registration): ((nat, ((nat, (nat, nat)), nat)), (Bytes, (Bytes, Bytes))) {
    ((r.kind, ((r.port, (r.users, r.flags)), r.passId)), (r.name, (r.description, r.password)))
  }

  function OneRegistration(): Codec<Registration> {
    Mapped(Pair(Fixed(), Texts()), p => ToRegistration(p), r => FromRegistration(r))
  }

  predicate ShortTexts(r: Registration) {
    |r.name| <= 255 && |r.description| <= 255 && |r.password| <= 255
  }

  lemma FixedLawful()
    ensures Lawful(Fixed()) && Exact(Fixed())
    ensures forall p :: Fixed().fits(p) <==>
              1 <= p.0 <= 2 && p.1.0.0 < 0x1_0000 && p.1.0.1.0 < 0x1_0000 && p.1.0.1.1 < 0x1_0000
                  && p.1.1 < 0x1_0000_0000
  {
    hide Lawful, Exact, Numbers;
    U16Lawful();
    U32Lawful();
    WhereLawful(U16, (k: nat) => k == ADD || k == REMOVE, WrongFormatTag);
    NumbersLawful();
    PairLawful(Numbers(), U32);
    PairLawful(KIND, Pair(Numbers(), U32));
  }

  lemma TextsLawful()
    ensures Lawful(Texts()) && Exact(Texts())
    ensures forall p :: Texts().fits(p) <==> |p.0| <= 255 && |p.1.0| <= 255 && |p.1.1| <= 255
  {
    hide Lawful, Exact, TEXT;
    TextLawful();
    PairLawful(TEXT, TEXT);
    PairLawful(TEXT, Pair(TEXT, TEXT));
  }

  lemma OneRegistrationLawful()
    ensures Lawful(OneRegistration()) && Exact(OneRegistration())
    ensures forall r :: OneRegistration().fits(r) <==> (r.kind == ADD || r.kind == REMOVE) && ShortTexts(r)
  {
    hide Lawful, Exact, Fixed, Texts;
    FixedLawful();
    TextsLawful();
    var c := Pair(Fixed(), Texts());
    PairLawful(Fixed(), Texts());
    forall p | c.fits(p) ensures FromRegistration(ToRegistration(p)) == p {}
    MappedLawful(c, p => ToRegistration(p), r => FromRegistration(r));
  }

  function Encoding(r: Registration): Encoded {
    if ShortTexts(r) then Fine(OneRegistration().write(r)) else Refused(StringTooLong)
  }

  function Decoding(bytes: Bytes): Result<Registration> {
    Whole(OneRegistration(), 15, bytes)
  }

  // ------------------------------------------------------------------
  // The code
  // ------------------------------------------------------------------

  lemma FixedWrites(r: Registration)
    ensures Fixed().write(FromRegistration(r).0) ==
            WriteU16be(r.kind) + WriteU16be(r.port) + WriteU16be(r.users) + WriteU16be(r.flags) + WriteU32be(r.passId)
  {
    hide WriteU16be, WriteU32be, Numbers;
    NumbersWrite(r.port, r.users, r.flags);
  }

  lemma TextsWrite(r: Registration)
    requires ShortTexts(r)
    ensures Texts().write(FromRegistration(r).1) ==
            [|r.name|] + r.name + ([|r.description|] + r.description) + ([|r.password|] + r.password)
  {
    hide TEXT;
    TextOpens(r.name, []);
    TextOpens(r.description, []);
    TextOpens(r.password, []);
  }

  method Encode(r: Registration) returns (e: Encoded)
    ensures e == Encoding(r)
    ensures |r.name| > 255 || |r.description| > 255 || |r.password| > 255 ==> e == Refused(StringTooLong)
  {
    hide Fixed, Texts, WriteU16be, WriteU32be;
    if |r.name| > 255 || |r.description| > 255 || |r.password| > 255 {
      return Refused(StringTooLong);
    }
    var out := WriteU16be(r.kind) + WriteU16be(r.port) + WriteU16be(r.users) + WriteU16be(r.flags)
        + WriteU32be(r.passId);
    FixedWrites(r);
    TextsWrite(r);
    out := out + ([|r.name|] + r.name + ([|r.description|] + r.description) + ([|r.password|] + r.password));
    e := Fine(out);
  }

  lemma FixedReads(s: Bytes)
    requires |s| >= 12
    ensures var kind := ReadU16be(s);
            Fixed().read(s) == if kind != ADD && kind != REMOVE then Err(WrongFormatTag)
                               else Ok(((kind as nat, ((ReadU16be(s[2..]) as nat,
                                                        (ReadU16be(s[4..]) as nat, ReadU16be(s[6..]) as nat)),
                                                       ReadU32be(s[8..]) as nat)), s[12..]))
  {
    hide ReadU16be, ReadU32be, Numbers;
    NumbersRead(s[2..]);
    assert s[2..][2..] == s[4..] && s[2..][4..] == s[6..] && s[2..][6..] == s[8..] && s[8..][4..] == s[12..];
  }

  /** Three texts one after another. */
  function TextsRead(s: Bytes): Result<((Bytes, (Bytes, Bytes)), Bytes)> {
    var a := TEXT.read(s);
    if a.Err? then Err(a.error)
    else
      var b := TEXT.read(a.value.1);
      if b.Err? then Err(b.error)
      else
        var c := TEXT.read(b.value.1);
        if c.Err? then Err(c.error) else Ok(((a.value.0, (b.value.0, c.value.0)), c.value.1))
  }

  lemma TextsReads(s: Bytes)
    ensures Texts().read(s) == TextsRead(s)
  {
    hide TEXT;
  }

  lemma RegistrationReads(s: Bytes)
    ensures var fixed := Fixed().read(s);
            OneRegistration().read(s) ==
            if fixed.Err? then Err(fixed.error)
            else
              var texts := Texts().read(fixed.value.1);
              if texts.Err? then Err(texts.error)
              else Ok((ToRegistration((fixed.value.0, texts.value.0)), texts.value.1))
  {
    hide Fixed, Texts, ToRegistration;
  }

  method Decode(bytes: Bytes) returns (r: Result<Registration>)
    ensures r == Decoding(bytes)
    ensures |bytes| >= 15 && ReadU16be(bytes) != 1 && ReadU16be(bytes) != 2 ==> r == Err(WrongFormatTag)
  {
    hide Fixed, Texts, OneRegistration, TEXT, ReadU16be, ReadU32be;
    if |bytes| <= 14 {
      return Err(Truncated);
    }
    RegistrationReads(bytes);
    FixedReads(bytes);
    TextsReads(bytes[12..]);
    var kind := ReadU16be(bytes);
    if kind != ADD && kind != REMOVE {
      return Err(WrongFormatTag);
    }
    var total := 12;
    var name, consumed := TakeText(bytes[total..]);
    if name.Err? {
      return Err(name.error);
    }
    assert bytes[total..][consumed..] == bytes[total + consumed..];
    total := total + consumed;
    var description;
    description, consumed := TakeText(bytes[total..]);
    if description.Err? {
      return Err(description.error);
    }
    assert bytes[total..][consumed..] == bytes[total + consumed..];
    total := total + consumed;
    var password;
    password, consumed := TakeText(bytes[total..]);
    if password.Err? {
      return Err(password.error);
    }
    assert bytes[total..][consumed..] == bytes[total + consumed..];
    total := total + consumed;
    if total != |bytes| {
      return Err(TrailingBytes);
    }
    r := Ok(Registration(kind, ReadU16be(bytes[2..]), ReadU16be(bytes[4..]), ReadU16be(bytes[6..]),
                         ReadU32be(bytes[8..]),
                         name.value, description.value, password.value));
  }

  // ------------------------------------------------------------------
  // Registrations survive
  // ------------------------------------------------------------------

  /** An encoded registration comes back exactly when its type is add or remove. */
  lemma DecodeUndoesEncode(r: Registration)
    requires Encoding(r).Fine?
    ensures Decoding(Encoding(r).bytes) == Ok(r) <==> r.kind == ADD || r.kind == REMOVE
  {
    hide Lawful, Exact, Writes, OneRegistration, Whole;
    OneRegistrationLawful();
    if Decoding(Encoding(r).bytes) == Ok(r) {
      WholeReadsOnlyWritten(OneRegistration(), 15, Encoding(r).bytes);
    }
    if r.kind == ADD || r.kind == REMOVE {
      WritesItself(OneRegistration(), r);
      RegistrationRoom(r);
      WholeLaws(OneRegistration(), 15, r, OneRegistration().write(r), 0, []);
    }
  }

  lemma RegistrationRoom(r: Registration)
    requires ShortTexts(r)
    ensures |OneRegistration().write(r)| >= 15
  {
    hide Fixed, Texts, WriteU16be, WriteU32be;
    FixedWrites(r);
    TextsWrite(r);
  }

  lemma NoPrefixNoExtension(r: Registration, n: nat, more: Bytes)
    requires Encoding(r).Fine? && (r.kind == ADD || r.kind == REMOVE)
    ensures var b := Encoding(r).bytes;
            && (n < |b| ==> Decoding(b[..n]) == Err(Truncated))
            && (more != [] ==> Decoding(b + more) == Err(TrailingBytes))
  {
    hide Lawful, Exact, Writes, OneRegistration, Whole;
    OneRegistrationLawful();
    WritesItself(OneRegistration(), r);
    RegistrationRoom(r);
    WholeLaws(OneRegistration(), 15, r, OneRegistration().write(r), n, more);
  }

  /** What is decoded encodes to exactly the bytes it came from. */
  lemma EncodeUndoesDecode(b: Bytes)
    requires Decoding(b).Ok?
    ensures Encoding(Decoding(b).value) == Fine(b)
  {
    hide Lawful, Exact, OneRegistration, Whole;
    OneRegistrationLawful();
    WholeReadsOnlyWritten(OneRegistration(), 15, b);
  }

  /** The encoding written out: five numbers, then name, description and password behind their lengths. */
  lemma EncodingIs(r: Registration)
    requires Encoding(r).Fine?
    ensures Encoding(r).bytes ==
            WriteU16be(r.kind) + WriteU16be(r.port) + WriteU16be(r.users) + WriteU16be(r.flags) + WriteU32be(r.passId)
            + [|r.name|] + r.name + [|r.description|] + r.description + [|r.password|] + r.password
  {
    hide Fixed, Texts, WriteU16be, WriteU32be;
    FixedWrites(r);
    TextsWrite(r);
  }
}
