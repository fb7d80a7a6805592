/** Reading an upload: sniff a prefix, then spool the rest in bounded chunks up to one byte past the limit. */
module Upload {
  import opened Wrappers

  newtype byte = x: int | 0 <= x < 256

  const MAX_FILE_SIZE: nat := 10 * 1024 * 1024
  const SIGNATURE_PEEK_SIZE: nat := 4096
  const UPLOAD_CHUNK_SIZE: nat := 64 * 1024

  const PDF_MAGIC: seq<byte> := [0x25, 0x50, 0x44, 0x46, 0x2d]
  const PNG_MAGIC: seq<byte> := [0x89, 0x50, 0x4e, 0x47, 0x0d, 0x0a, 0x1a, 0x0a]
  const JPEG_MAGIC: seq<byte> := [0xff, 0xd8, 0xff]
  const MSWORD_MAGIC: seq<byte> := [0xd0, 0xcf, 0x11, 0xe0, 0xa1, 0xb1, 0x1a, 0xe1]
  const ZIP_MAGIC: seq<byte> := [0x50, 0x4b, 0x03, 0x04]

  datatype Mime = Pdf | Png | Jpeg | Jpg | MsWord | Docx | OtherType(name: string)

  const ALLOWED_MIME: set<Mime> := {Pdf, Png, Jpeg, Jpg, MsWord, Docx}

  function SniffContentType(data: seq<byte>): Option<Mime> {
    if PDF_MAGIC <= data then Some(Pdf)
    else if PNG_MAGIC <= data then Some(Png)
    else if JPEG_MAGIC <= data then Some(Jpeg)
    else if MSWORD_MAGIC <= data then Some(MsWord)
    else if ZIP_MAGIC <= data then Some(Docx)
    else None
  }

  /** The types that have a signature to be told by. */
  predicate Recognized(m: Mime) {
    m in {Pdf, Png, Jpeg, MsWord, Docx}
  }

  function Signature(m: Mime): seq<byte>
    requires Recognized(m)
  {
    match m
    case Pdf => PDF_MAGIC
    case Png => PNG_MAGIC
    case Jpeg => JPEG_MAGIC
    case MsWord => MSWORD_MAGIC
    case Docx => ZIP_MAGIC
  }

  /** No signature is the beginning of another, so the order of the checks does not matter. */
  lemma SniffMeaning(data: seq<byte>, m: Mime)
    ensures SniffContentType(data) == Some(m) <==> Recognized(m) && Signature(m) <= data
  {
    if Recognized(m) && Signature(m) <= data {
      assert data[0] == Signature(m)[0];
    }
  }

  /** A prefix shows the file's type exactly when it holds the whole signature, and never shows another. */
  lemma SniffPrefix(prefix: seq<byte>, content: seq<byte>)
    requires prefix <= content
    ensures SniffContentType(prefix) ==
            match SniffContentType(content)
            case None => None
            case Some(m) => if Recognized(m) && |Signature(m)| <= |prefix| then Some(m) else None
  {
    var seen := SniffContentType(prefix);
    if seen.Some? {
      SniffMeaning(prefix, seen.value);
      SniffMeaning(content, seen.value);
    }
    var whole := SniffContentType(content);
    if whole.Some? {
      SniffMeaning(content, whole.value);
      SniffMeaning(prefix, whole.value);
    }
  }

  datatype Reason = UnsupportedType | TypeMismatch | TooLarge | NoDeclaredType

  datatype Verdict = Accepted(data: seq<byte>, mime: Mime) | Rejected(reason: Reason)

  function Declared(m: Mime): Mime {
    if m == Jpg then Jpeg else m
  }

  /** The verdict on a file, given what the first read happened to return. */
  function Judge(content: seq<byte>, prefix: seq<byte>, declared: Mime): Verdict {
    match SniffContentType(prefix)
    case None => Rejected(UnsupportedType)
    case Some(m) =>
      if m != Declared(declared) then Rejected(TypeMismatch)
      else if |content| > MAX_FILE_SIZE then Rejected(TooLarge)
      else Accepted(content, m)
  }

  /**
   Whatever the first read returned: a file is accepted exactly if its own type is the declared one, it is
   within the limit, and the first read was not cut short within its signature; all of it is then handed on.
   */
  lemma AcceptedExactly(content: seq<byte>, prefix: seq<byte>, declared: Mime)
    requires prefix <= content
    ensures Judge(content, prefix, declared).Accepted? <==>
              && SniffContentType(content) == Some(Declared(declared)) && |content| <= MAX_FILE_SIZE
              && Recognized(Declared(declared)) && |prefix| >= |Signature(Declared(declared))|
    ensures Judge(content, prefix, declared).Accepted? ==>
              Judge(content, prefix, declared) == Accepted(content, Declared(declared))
    ensures Judge(content, prefix, declared) == Rejected(UnsupportedType) <==>
              forall m | SniffContentType(content) == Some(m) :: Recognized(m) ==> |prefix| < |Signature(m)|
    ensures Judge(content, prefix, declared) == Rejected(TypeMismatch) <==>
              exists m | SniffContentType(content) == Some(m) ::
                Recognized(m) && |prefix| >= |Signature(m)| && m != Declared(declared)
  {
    SniffPrefix(prefix, content);
    var whole := SniffContentType(content);
    if whole.Some? {
      SniffMeaning(content, whole.value);
    }
  }

  /** The alias "image/jpg" is as good as "image/jpeg", and every other declared type stands for itself alone. */
  lemma JpgIsJpeg(content: seq<byte>, prefix: seq<byte>, declared: Mime)
    requires prefix <= content
    ensures Judge(content, prefix, Jpg) == Judge(content, prefix, Jpeg)
    ensures Judge(content, prefix, declared).Accepted? ==>
              Judge(content, prefix, declared).mime == if declared == Jpg then Jpeg else declared
  {
    AcceptedExactly(content, prefix, declared);
  }

  /** A source that may return fewer bytes than asked, but at least one until its end. */
  class ByteStream {
    var rest: seq<byte>

    constructor (content: seq<byte>)
      ensures rest == content
    {
      rest := content;
    }

    method Read(n: nat) returns (chunk: seq<byte>)
      requires n > 0
      modifies this
      ensures old(rest) == chunk + rest && |chunk| <= n
      ensures chunk == [] <==> old(rest) == []
    {
      if rest == [] {
        return [];
      }
      var k :| 1 <= k <= n && k <= |rest|;
      chunk, rest := rest[..k], rest[k..];
    }
  }

  /** The temporary file an upload is copied to: reads and writes happen at its position. */
  class Spool {
    var data: seq<byte>
    var pos: nat

    predicate Valid()
      reads this
    {
      pos <= |data|
    }

    constructor ()
      ensures Valid() && data == [] && pos == 0
    {
      data, pos := [], 0;
    }

    method Seek(to: nat)
      requires to <= |data|
      modifies this`pos
      ensures pos == to
    {
      pos := to;
    }

    /** Overwrites from the position on, growing the file as needed. */
    method Write(chunk: seq<byte>)
      requires Valid()
      modifies this
      ensures Valid() && pos == old(pos) + |chunk|
      ensures data == old(data[..pos]) + chunk + if pos < |old(data)| then old(data)[pos..] else []
    {
      var end := pos + |chunk|;
      data := data[..pos] + chunk + if end < |data| then data[end..] else [];
      pos := end;
    }

    method Read(n: nat) returns (chunk: seq<byte>)
      requires Valid()
      modifies this`pos
      ensures Valid() && pos == old(pos) + |chunk|
      ensures chunk == if old(pos) + n <= |data| then data[old(pos)..old(pos) + n] else data[old(pos)..]
    {
      var end := if pos + n <= |data| then pos + n else |data|;
      chunk, pos := data[pos..end], end;
    }
  }

  /**
   Terminates for every source. The verdict is that of the whole file, although never more than one
   byte past the limit is read; on acceptance the spooled bytes are the whole source, rewound.
   */
  method ReadAndValidateUpload(stream: ByteStream, declared: Mime)
    returns (verdict: Verdict, prefix: seq<byte>, spool: Spool, size: nat)
    modifies stream
    ensures prefix <= old(stream.rest) && |prefix| <= SIGNATURE_PEEK_SIZE && (prefix == [] <==> old(stream.rest) == [])
    ensures verdict == Judge(old(stream.rest), prefix, declared)
    ensures fresh(spool) && spool.Valid()
    ensures verdict.Accepted? ==>
              spool.data == old(stream.rest) == verdict.data && size == |spool.data| && spool.pos == 0
    ensures |old(stream.rest)| - |stream.rest| <= MAX_FILE_SIZE + 1
    ensures verdict.Accepted? || verdict == Rejected(TooLarge) ==>
              var n := |old(stream.rest)|;
              stream.rest == old(stream.rest)[if n <= MAX_FILE_SIZE then n else MAX_FILE_SIZE + 1..]
  {
    ghost var source := stream.rest;
    spool := new Spool();
    size := 0;
    var declaredType := declared;
    if declaredType == Jpg {
      declaredType := Jpeg;
    }
    prefix := stream.Read(SIGNATURE_PEEK_SIZE);
    var sniffed := SniffContentType(prefix);
    if sniffed == None || sniffed.value !in ALLOWED_MIME {
      verdict := Rejected(UnsupportedType);
      return;
    }
    if sniffed.value != declaredType {
      verdict := Rejected(TypeMismatch);
      return;
    }
    spool.Write(prefix);
    size := |prefix|;
    var remainingCap := MAX_FILE_SIZE + 1 - size;
    while remainingCap > 0
      invariant spool.Valid() && spool.pos == |spool.data| == size
      invariant source == spool.data + stream.rest
      invariant size + remainingCap == MAX_FILE_SIZE + 1 && remainingCap >= 0
    {
      var chunk := stream.Read(if UPLOAD_CHUNK_SIZE <= remainingCap then UPLOAD_CHUNK_SIZE else remainingCap);
      if chunk == [] {
        break;
      }
      spool.Write(chunk);
      size := size + |chunk|;
      remainingCap := remainingCap - |chunk|;
    }
    assert stream.rest == source[size..];
    if size > MAX_FILE_SIZE {
      verdict := Rejected(TooLarge);
      return;
    }
    spool.Seek(0);
    verdict := Accepted(spool.data, sniffed.value);
  }
}
