/** The four predefined namespace identifiers of Appendix C of RFC 4122,
    which the library parses from their canonical strings when it starts. */
module Namespace {
  import opened UuidTypes
  import opened Codec

  /** The canonical strings of Appendix C of RFC 4122. */
  const DnsText: string := "6ba7b810-9dad-11d1-80b4-00c04fd430c8"
  const UrlText: string := "6ba7b811-9dad-11d1-80b4-00c04fd430c8"
  const IodText: string := "6ba7b812-9dad-11d1-80b4-00c04fd430c8"
  const X500Text: string := "6ba7b814-9dad-11d1-80b4-00c04fd430c8"

  /** The same identifiers as bytes. */
  const DnsBytes: UUID := [0x6b, 0xa7, 0xb8, 0x10, 0x9d, 0xad, 0x11, 0xd1, 0x80, 0xb4, 0x00, 0xc0, 0x4f, 0xd4, 0x30, 0xc8]
  const UrlBytes: UUID := [0x6b, 0xa7, 0xb8, 0x11, 0x9d, 0xad, 0x11, 0xd1, 0x80, 0xb4, 0x00, 0xc0, 0x4f, 0xd4, 0x30, 0xc8]
  const IodBytes: UUID := [0x6b, 0xa7, 0xb8, 0x12, 0x9d, 0xad, 0x11, 0xd1, 0x80, 0xb4, 0x00, 0xc0, 0x4f, 0xd4, 0x30, 0xc8]
  const X500Bytes: UUID := [0x6b, 0xa7, 0xb8, 0x14, 0x9d, 0xad, 0x11, 0xd1, 0x80, 0xb4, 0x00, 0xc0, 0x4f, 0xd4, 0x30, 0xc8]

  /** Bytes 4 to 15, which the four namespaces share, and their text. */
  const SharedText: string := "-9dad-11d1-80b4-00c04fd430c8"
  const SharedTail: seq<byte> := [0x9d, 0xad, 0x11, 0xd1, 0x80, 0xb4, 0x00, 0xc0, 0x4f, 0xd4, 0x30, 0xc8]

  // ---------------------------------------------------------------------
  // Rendering, group by group

  lemma Group1Text() ensures Encode([0x9d, 0xad]) == "9dad" {}
  lemma Group2Text() ensures Encode([0x11, 0xd1]) == "11d1" {}
  lemma Group3Text() ensures Encode([0x80, 0xb4]) == "80b4" {}
  lemma Group4Text() ensures Encode([0x00, 0xc0, 0x4f, 0xd4, 0x30, 0xc8]) == "00c04fd430c8" {}

  /** The shared bytes render as the last four groups of every namespace. */
  lemma SharedGroupsText(u: UUID)
    requires u[4..] == SharedTail
    ensures Encode(u[4..6]) == "9dad" && Encode(u[6..8]) == "11d1"
    ensures Encode(u[8..10]) == "80b4" && Encode(u[10..16]) == "00c04fd430c8"
  {
    SharedGroup(u, 4, 6, [0x9d, 0xad]);
    Group1Text();
    SharedGroup(u, 6, 8, [0x11, 0xd1]);
    Group2Text();
    SharedGroup(u, 8, 10, [0x80, 0xb4]);
    Group3Text();
    SharedGroup(u, 10, 16, [0x00, 0xc0, 0x4f, 0xd4, 0x30, 0xc8]);
    Group4Text();
  }

  lemma SharedGroup(u: UUID, lo: nat, hi: nat, g: seq<byte>)
    requires u[4..] == SharedTail && 4 <= lo <= hi <= 16 && g == SharedTail[lo - 4..hi - 4]
    ensures u[lo..hi] == g
  {
    assert u[lo..hi] == u[4..][lo - 4..hi - 4];
  }

  lemma Joined(h: string)
    ensures h + "-" + "9dad" + "-" + "11d1" + "-" + "80b4" + "-" + "00c04fd430c8" == h + SharedText
  {
  }

  /** A four-byte head followed by the shared tail renders as the head's
      hex digits followed by the shared text. */
  lemma RenderedWithSharedTail(u: UUID, head: seq<byte>, headText: string)
    requires u == head + SharedTail && |head| == 4 && Encode(head) == headText
    ensures u[4..] == SharedTail
    ensures String(u) == headText + SharedText
  {
    assert u[..4] == head && u[4..] == SharedTail;
    SharedGroupsText(u);
    Joined(headText);
  }

  /** A namespace built from a four-byte head and the shared tail renders as
      `text`, and `FromString` parses `text` back to it without error: its
      version nibble is 1 and its variant bits are `10`. */
  lemma NamespaceParses(u: UUID, head: seq<byte>, headText: string, text: string)
    requires u == head + SharedTail && |head| == 4
    requires Encode(head) == headText && text == headText + SharedText
    ensures String(u) == text
    ensures u[6] >> 4 == 1 && u[8] >> 6 == 2
    ensures FromString(text) == UuidResult(u, None)
  {
    RenderedWithSharedTail(u, head, headText);
    SharedTailWellFormed(u);
    FromStringOfString(u);
  }

  /** The shared tail holds version 1 in byte 6 and the RFC 4122 variant in byte 8. */
  lemma SharedTailWellFormed(u: UUID)
    requires u[4..] == SharedTail
    ensures u[6] >> 4 == 1 && u[8] >> 6 == 2
  {
    assert u[6] == u[4..][2] && u[8] == u[4..][4];
  }

  // Each namespace is a head and the shared tail; its text is the head's
  // hex digits and the shared text.

  lemma DnsPieces()
    ensures DnsBytes == [0x6b, 0xa7, 0xb8, 0x10] + SharedTail
    ensures Encode([0x6b, 0xa7, 0xb8, 0x10]) == "6ba7b810"
  {
  }

  lemma DnsTextPieces()
    ensures DnsText == "6ba7b810" + SharedText
  {
  }

  lemma UrlPieces()
    ensures UrlBytes == [0x6b, 0xa7, 0xb8, 0x11] + SharedTail
    ensures Encode([0x6b, 0xa7, 0xb8, 0x11]) == "6ba7b811"
  {
  }

  lemma UrlTextPieces()
    ensures UrlText == "6ba7b811" + SharedText
  {
  }

  lemma IodPieces()
    ensures IodBytes == [0x6b, 0xa7, 0xb8, 0x12] + SharedTail
    ensures Encode([0x6b, 0xa7, 0xb8, 0x12]) == "6ba7b812"
  {
  }

  lemma IodTextPieces()
    ensures IodText == "6ba7b812" + SharedText
  {
  }

  lemma X500Pieces()
    ensures X500Bytes == [0x6b, 0xa7, 0xb8, 0x14] + SharedTail
    ensures Encode([0x6b, 0xa7, 0xb8, 0x14]) == "6ba7b814"
  {
  }

  lemma X500TextPieces()
    ensures X500Text == "6ba7b814" + SharedText
  {
  }

  /** The DNS namespace string is the canonical form of its bytes, and it
      parses back to them without error. */
  lemma DnsParses()
    ensures String(DnsBytes) == DnsText && FromString(DnsText) == UuidResult(DnsBytes, None)
  {
    DnsPieces();
    DnsTextPieces();
    NamespaceParses(DnsBytes, [0x6b, 0xa7, 0xb8, 0x10], "6ba7b810", DnsText);
  }

  lemma UrlParses()
    ensures String(UrlBytes) == UrlText && FromString(UrlText) == UuidResult(UrlBytes, None)
  {
    UrlPieces();
    UrlTextPieces();
    NamespaceParses(UrlBytes, [0x6b, 0xa7, 0xb8, 0x11], "6ba7b811", UrlText);
  }

  lemma IodParses()
    ensures String(IodBytes) == IodText && FromString(IodText) == UuidResult(IodBytes, None)
  {
    IodPieces();
    IodTextPieces();
    NamespaceParses(IodBytes, [0x6b, 0xa7, 0xb8, 0x12], "6ba7b812", IodText);
  }

  lemma X500Parses()
    ensures String(X500Bytes) == X500Text && FromString(X500Text) == UuidResult(X500Bytes, None)
  {
    X500Pieces();
    X500TextPieces();
    NamespaceParses(X500Bytes, [0x6b, 0xa7, 0xb8, 0x14], "6ba7b814", X500Text);
  }

  /** The four namespaces agree everywhere but in byte 3 (the low byte of
      time_low), so they are pairwise distinct. */
  lemma NamespacesDifferOnlyInByte3()
    ensures forall i :: 0 <= i < UuidSize && i != 3 ==>
      DnsBytes[i] == UrlBytes[i] == IodBytes[i] == X500Bytes[i]
    ensures DnsBytes[3] != UrlBytes[3] && DnsBytes[3] != IodBytes[3] && DnsBytes[3] != X500Bytes[3]
    ensures UrlBytes[3] != IodBytes[3] && UrlBytes[3] != X500Bytes[3] && IodBytes[3] != X500Bytes[3]
  {
    DnsPieces();
    UrlPieces();
    IodPieces();
    X500Pieces();
  }

  // ---------------------------------------------------------------------
  // initNamespace

  /** The four package-level namespace variables. */
  class Namespaces {
    var dns: UUID
    var url: UUID
    var iod: UUID
    var x500: UUID

    /** Package variables start as the zero UUID. */
    constructor ()
      ensures dns == ZeroUuid && url == ZeroUuid && iod == ZeroUuid && x500 == ZeroUuid
    {
      dns, url, iod, x500 := ZeroUuid, ZeroUuid, ZeroUuid, ZeroUuid;
    }

    /** `initNamespace` with the four strings as parameters: each variable
        in turn receives `FromString`'s UUID (also when it comes with an
        error), and the first error stops the sequence, leaving the later
        variables as they were. */
    method Init(dnsText: string, urlText: string, iodText: string, x500Text: string) returns (err: Option<Error>)
      modifies this
      ensures dns == FromString(dnsText).uuid
      ensures FromString(dnsText).err != None ==>
        err == FromString(dnsText).err && url == old(url) && iod == old(iod) && x500 == old(x500)
      ensures FromString(dnsText).err == None ==> url == FromString(urlText).uuid
      ensures FromString(dnsText).err == None && FromString(urlText).err != None ==>
        err == FromString(urlText).err && iod == old(iod) && x500 == old(x500)
      ensures FromString(dnsText).err == None && FromString(urlText).err == None ==> iod == FromString(iodText).uuid
      ensures FromString(dnsText).err == None && FromString(urlText).err == None && FromString(iodText).err != None ==>
        err == FromString(iodText).err && x500 == old(x500)
      ensures FromString(dnsText).err == None && FromString(urlText).err == None && FromString(iodText).err == None ==>
        x500 == FromString(x500Text).uuid && err == FromString(x500Text).err
      ensures err == None <==>
        FromString(dnsText).err == None && FromString(urlText).err == None
        && FromString(iodText).err == None && FromString(x500Text).err == None
    {
      var r := FromString(dnsText);
      dns := r.uuid;
      if r.err != None {
        return r.err;
      }
      r := FromString(urlText);
      url := r.uuid;
      if r.err != None {
        return r.err;
      }
      r := FromString(iodText);
      iod := r.uuid;
      if r.err != None {
        return r.err;
      }
      r := FromString(x500Text);
      x500 := r.uuid;
      return r.err;
    }

    /** `initNamespace` on the strings of Appendix C: it succeeds and sets
        the four variables to the namespace bytes. */
    method InitNamespace() returns (err: Option<Error>)
      modifies this
      ensures err == None
      ensures dns == DnsBytes && url == UrlBytes && iod == IodBytes && x500 == X500Bytes
    {
      DnsParses();
      UrlParses();
      IodParses();
      X500Parses();
      err := Init(DnsText, UrlText, IodText, X500Text);
    }
  }
}
