/** The encrypted-transaction hooks of a connection: a cipher, or nothing at all. */
module CryptoHooks {
  import opened Endian
  import opened Wire
  import opened Receiver
  import Cipher = TransactionCipher

  class ConnectionCryptoHooks {
    const cipher: Cipher.TransactionCipher?

    ghost const repr: set<object>
    ghost var encoder: Hooks
    ghost var decoder: Hooks

    ghost predicate Valid()
      reads this, repr
      ensures Valid() ==> encoder.Valid() && decoder.Valid()
      ensures Valid() ==> encoder.Hooks? == decoder.Hooks? == (cipher != null)
    {
      && encoder.Valid() && decoder.Valid()
      && this in repr
      && if cipher == null then encoder == decoder == NoHooks
         else
           && cipher.Footprint() <= repr && this !in cipher.Footprint()
           && cipher.Valid()
           && encoder == Hooks(cipher.params, cipher.EncodeDir())
           && decoder == Hooks(cipher.params, cipher.DecodeDir())
    }

    constructor (cipher: Cipher.TransactionCipher?)
      requires cipher != null ==> cipher.Valid()
      ensures Valid() && this.cipher == cipher
      ensures repr == {this} + if cipher == null then {} else cipher.Footprint()
      ensures cipher == null ==> encoder == decoder == NoHooks
      ensures cipher != null ==> encoder == Hooks(cipher.params, cipher.EncodeDir())
      ensures cipher != null ==> decoder == Hooks(cipher.params, cipher.DecodeDir())
    {
      this.cipher := cipher;
      encoder := if cipher == null then NoHooks else Hooks(cipher.params, cipher.EncodeDir());
      decoder := if cipher == null then NoHooks else Hooks(cipher.params, cipher.DecodeDir());
      repr := {this} + if cipher == null then {} else cipher.Footprint();
    }

    /** Encodes a transaction in place; without a cipher it stays as it is. */
    method Encode(header: array<byte>, data: array<byte>, flag: byte)
      requires Valid() && header.Length == HEADER_SIZE && header != data
      requires header !in repr && data !in repr
      modifies repr, header, data
      ensures Valid() && decoder == old(decoder)
      ensures (encoder, header[..], data[..]) ==
              match old(encoder)
              case NoHooks => (NoHooks, old(header[..]), old(data[..]))
              case Hooks(params, dir) =>
                var (dir', m) := Cipher.Sealed(params, dir, Cipher.Packet(old(header[..]), old(data[..])), flag);
                (Hooks(params, dir'), m.header, m.data)
    {
      hide Cipher.Sealed;
      if cipher != null {
        cipher.Encode(header, data, flag);
        encoder := Hooks(cipher.params, cipher.EncodeDir());
      }
    }

    method DecodeHeader(header: array<byte>) returns (flag: byte)
      requires Valid() && header.Length == HEADER_SIZE && header !in repr
      modifies repr, header
      ensures Valid() && encoder == old(encoder)
      ensures (decoder, header[..], flag) == HeaderIn(old(decoder), old(header[..]))
    {
      hide Cipher.Passed;
      flag := 0;
      if cipher != null {
        flag := cipher.DecodeHeader(header);
        decoder := Hooks(cipher.params, cipher.DecodeDir());
      }
    }

    method DecodeData(received: Bytes, flag: byte) returns (data: Bytes)
      requires Valid()
      modifies repr
      ensures Valid() && encoder == old(encoder)
      ensures (decoder, data) == DataIn(old(decoder), received, flag)
    {
      hide Cipher.PassedData;
      data := received;
      if cipher != null {
        var buffer := new byte[|data|](i requires 0 <= i < |data| => data[i]);
        assert buffer[..] == data;
        cipher.DecodeData(buffer, flag);
        data := buffer[..];
        decoder := Hooks(cipher.params, cipher.DecodeDir());
      }
    }
  }
}
