/**
 * codec/gob.go: the framing of a seal file. The gob encoding and the gzip
 * layer are abstracted to a stream of typed values (tokens); sha1 over the
 * entries is an uninterpreted, deterministic function `hash` of the sequence of
 * entries hashed so far. Channels become sequences.
 */
module GobCodec {
  import opened Wrappers
  import Text
  import Api

  const GobExtension := "gobz"
  const Version := 1

  /** One gob value in the stream, or a value the decoder cannot read
      (a damaged or truncated stream), with the decoder's error text. */
  datatype Token =
    | TInt(n: int)
    | TInfo(info: Api.FileInfo)
    | TBool(b: bool)
    | TBytes(bytes: seq<bv8>)
    | TCorrupt(text: string)

  /** The errors Deserialize returns: DecodeError and SignatureMismatchError. */
  datatype GobError = DecodeError(msg: string) | SignatureMismatchError

  const MismatchPhrase := "type mismatch in decoder"

  /** io.EOF's text: what the decoder reports at the end of the stream. */
  const EOFText := "EOF"

  /** The decoder's error when a non-struct value is decoded into a FileInfo. */
  const StructMismatch := "gob: " + MismatchPhrase + ": want struct type api.FileInfo; got non-struct"

  function RemoteType(t: Token): string {
    match t
    case TInt(_) => "int"
    case TInfo(_) => "FileInfo"
    case TBool(_) => "bool"
    case TBytes(_) => "[]uint8"
    case TCorrupt(_) => "corrupt"
  }

  /** The decoder's error when a value of another type is decoded into an int or a []byte. */
  function LocalMismatch(local: string, t: Token): string {
    "gob: decoding into local type " + local + ", received remote type " + RemoteType(t)
  }

  function VersionMsg(v: int): string {
    "Cannot handle index file: invalid header version: " + Text.SignedDecimal(v)
  }

  datatype Decoded<T> = Got(value: T) | Fail(text: string)

  /** d.Decode(&fileVersion) on the value at `pos`. */
  function DecodeInt(s: seq<Token>, pos: nat): Decoded<int> {
    if pos >= |s| then Fail(EOFText)
    else match s[pos]
      case TInt(n) => Got(n)
      case TCorrupt(text) => Fail(text)
      case _ => Fail(LocalMismatch("int", s[pos]))
  }

  /** d.Decode(&v) into an api.FileInfo. */
  function DecodeInfo(s: seq<Token>, pos: nat): Decoded<Api.FileInfo> {
    if pos >= |s| then Fail(EOFText)
    else match s[pos]
      case TInfo(info) => Got(info)
      case TCorrupt(text) => Fail(text)
      case _ => Fail(StructMismatch)
  }

  /** d.Decode(&signature) into a []byte. */
  function DecodeBytes(s: seq<Token>, pos: nat): Decoded<seq<bv8>> {
    if pos >= |s| then Fail(EOFText)
    else match s[pos]
      case TBytes(b) => Got(b)
      case TCorrupt(text) => Fail(text)
      case _ => Fail(LocalMismatch("[]uint8", s[pos]))
  }

  // ---------------------------------------------------------------------------
  // Serialize
  // ---------------------------------------------------------------------------

  function Infos(xs: seq<Api.FileInfo>): (r: seq<Token>)
    ensures |r| == |xs| && forall i :: 0 <= i < |xs| ==> r[i] == TInfo(xs[i])
  {
    seq(|xs|, i requires 0 <= i < |xs| => TInfo(xs[i]))
  }

  /** A stream laid out as Serialize lays it out, with signature `sig`. */
  function Framed(xs: seq<Api.FileInfo>, sig: seq<bv8>): seq<Token> {
    [TInt(Version)] + Infos(xs) + [TBool(true), TBytes(sig)]
  }

  /** The stream Serialize writes: the version, each entry in order, the marker
      `true`, then the hash of all entries. */
  function Encoded(xs: seq<Api.FileInfo>, hash: seq<Api.FileInfo> -> seq<bv8>): (s: seq<Token>)
    ensures |s| == |xs| + 3 && s[0] == TInt(Version)
    ensures s[1..|xs| + 1] == Infos(xs)
    ensures s[|xs| + 1] == TBool(true) && s[|xs| + 2] == TBytes(hash(xs))
  {
    var s := Framed(xs, hash(xs));
    assert s[1..|xs| + 1] == Infos(xs);
    s
  }

  /** Gob.Serialize: encode the version, each entry (folding it into the hash
      first), the marker and the signature. Writer errors are not modelled. */
  method Serialize(input: seq<Api.FileInfo>, hash: seq<Api.FileInfo> -> seq<bv8>) returns (out: seq<Token>)
    ensures out == Encoded(input, hash)
  {
    var hashed: seq<Api.FileInfo> := [];
    out := [TInt(Version)];
    for i := 0 to |input|
      invariant hashed == input[..i]
      invariant out == [TInt(Version)] + Infos(input[..i])
    {
      hashed := hashed + [input[i]];
      out := out + [TInfo(input[i])];
      assert input[..i + 1] == input[..i] + [input[i]];
      assert Infos(input[..i + 1]) == Infos(input[..i]) + [TInfo(input[i])];
    }
    assert input[..|input|] == input;
    out := out + [TBool(true)];
    out := out + [TBytes(hash(hashed))];
  }

  // ---------------------------------------------------------------------------
  // Deserialize
  // ---------------------------------------------------------------------------

  /** The signature check after the entries: `hashed` are the entries seen. */
  function Signature(s: seq<Token>, pos: nat, hashed: seq<Api.FileInfo>, out: seq<Api.FileInfo>,
                     hash: seq<Api.FileInfo> -> seq<bv8>): (r: (seq<Api.FileInfo>, Option<GobError>))
    ensures r.0 == out
  {
    match DecodeBytes(s, pos)
    case Fail(text) => (out, Some(DecodeError(text)))
    case Got(sig) => if sig != hash(hashed) then (out, Some(SignatureMismatchError)) else (out, None)
  }

  /** The entry loop from `pos`: `hashed` are the entries read so far, `out`
      those forwarded. A decode error naming a type mismatch ends the entries. */
  function Entries(s: seq<Token>, pos: nat, hashed: seq<Api.FileInfo>, out: seq<Api.FileInfo>,
                   pred: Api.FileInfo -> (bool, Api.FileInfo), hash: seq<Api.FileInfo> -> seq<bv8>)
    : (seq<Api.FileInfo>, Option<GobError>)
    decreases |s| - pos
  {
    match DecodeInfo(s, pos)
    case Fail(text) =>
      if Text.Contains(text, MismatchPhrase) then Signature(s, pos + 1, hashed, out, hash)
      else (out, Some(DecodeError(text)))
    case Got(v) =>
      var p := pred(v);
      if !p.0 then (out, None)
      else Entries(s, pos + 1, hashed + [v], out + [p.1], pred, hash)
  }

  /** What Deserialize sends to `out` and returns. */
  function Deserialized(s: seq<Token>, pred: Api.FileInfo -> (bool, Api.FileInfo),
                        hash: seq<Api.FileInfo> -> seq<bv8>): (seq<Api.FileInfo>, Option<GobError>)
  {
    match DecodeInt(s, 0)
    case Fail(text) => ([], Some(DecodeError(text)))
    case Got(v) =>
      if v != Version then ([], Some(DecodeError(VersionMsg(v))))
      else Entries(s, 1, [], [], pred, hash)
  }

  /** Gob.Deserialize: `out` is what was sent on the channel. The predicate may
      alter the entry it is given; it sees it after it was hashed. */
  method Deserialize(s: seq<Token>, pred: Api.FileInfo -> (bool, Api.FileInfo),
                     hash: seq<Api.FileInfo> -> seq<bv8>)
    returns (out: seq<Api.FileInfo>, err: Option<GobError>)
    ensures (out, err) == Deserialized(s, pred, hash)
  {
    out := [];
    var fileVersion := DecodeInt(s, 0);
    if fileVersion.Fail? {
      return out, Some(DecodeError(fileVersion.text));
    }
    if fileVersion.value != Version {
      return out, Some(DecodeError(VersionMsg(fileVersion.value)));
    }

    var hashed: seq<Api.FileInfo> := [];
    var pos: nat := 1;
    var readError: Option<string> := None;
    while readError.None?
      invariant pos <= |s| + 1
      invariant Entries(s, pos, hashed, out, pred, hash) == Deserialized(s, pred, hash)
      decreases |s| + 1 - pos
    {
      var v := DecodeInfo(s, pos);
      if v.Fail? {
        readError := Some(v.text);
        if Text.Contains(v.text, MismatchPhrase) {
          pos := pos + 1;
          break;
        } else {
          return out, Some(DecodeError(v.text));
        }
      }
      pos := pos + 1;
      hashed := hashed + [v.value];
      var p := pred(v.value);
      if !p.0 {
        return out, None;
      }
      out := out + [p.1];
    }

    var signature := DecodeBytes(s, pos);
    if signature.Fail? {
      return out, Some(DecodeError(signature.text));
    }
    if signature.value != hash(hashed) {
      return out, Some(SignatureMismatchError);
    }
    return out, None;
  }

  // ---------------------------------------------------------------------------
  // Properties
  // ---------------------------------------------------------------------------

  /** The predicate keeps every entry and leaves it as it is. */
  function AcceptAll(v: Api.FileInfo): (bool, Api.FileInfo) {
    (true, v)
  }

  /** What the predicate lets through, in order: the altered entries up to the
      first one it rejects, and whether it rejected one. */
  function Forwarded(ys: seq<Api.FileInfo>, pred: Api.FileInfo -> (bool, Api.FileInfo))
    : (seq<Api.FileInfo>, bool)
    decreases |ys|
  {
    if ys == [] then ([], false)
    else if !pred(ys[0]).0 then ([], true)
    else
      var rest := Forwarded(ys[1..], pred);
      ([pred(ys[0]).1] + rest.0, rest.1)
  }

  lemma {:induction false} ForwardedAll(ys: seq<Api.FileInfo>)
    ensures Forwarded(ys, AcceptAll) == (ys, false)
    decreases |ys|
  {
    if ys != [] {
      ForwardedAll(ys[1..]);
      assert ys == [ys[0]] + ys[1..];
    }
  }

  lemma MarkerEndsEntries()
    ensures Text.Contains(StructMismatch, MismatchPhrase)
    ensures !Text.Contains(EOFText, MismatchPhrase)
  {
    Text.ContainsIn("gob: ", MismatchPhrase, ": want struct type api.FileInfo; got non-struct");
    Text.ShorterLacks(EOFText, MismatchPhrase);
  }

  lemma {:induction false} EntriesOfFramed(ys: seq<Api.FileInfo>, sig: seq<bv8>, k: nat, out: seq<Api.FileInfo>,
                                           pred: Api.FileInfo -> (bool, Api.FileInfo),
                                           hash: seq<Api.FileInfo> -> seq<bv8>)
    requires k <= |ys|
    ensures var f := Forwarded(ys[k..], pred);
            Entries(Framed(ys, sig), 1 + k, ys[..k], out, pred, hash) ==
            (out + f.0, if f.1 || sig == hash(ys) then None else Some(SignatureMismatchError))
    decreases |ys| - k
  {
    var s := Framed(ys, sig);
    if k == |ys| {
      assert s[1 + k] == TBool(true) && s[2 + k] == TBytes(sig);
      assert ys[..k] == ys && ys[k..] == [];
      MarkerEndsEntries();
    } else {
      assert s[1 + k] == TInfo(ys[k]);
      assert ys[k..][0] == ys[k] && ys[k..][1..] == ys[k + 1..];
      if pred(ys[k]).0 {
        assert ys[..k] + [ys[k]] == ys[..k + 1];
        EntriesOfFramed(ys, sig, k + 1, out + [pred(ys[k]).1], pred, hash);
        var f := Forwarded(ys[k + 1..], pred);
        assert out + [pred(ys[k]).1] + f.0 == out + ([pred(ys[k]).1] + f.0);
      } else {
        assert out + [] == out;
      }
    }
  }

  /** Reading a well-framed stream: the entries go out in stream order (as the
      predicate altered them) until the predicate rejects one; a rejection ends
      reading without error and without a signature check; otherwise the
      signature is compared with the hash of all entries as read, before any
      alteration. */
  lemma ReadFramed(ys: seq<Api.FileInfo>, sig: seq<bv8>, pred: Api.FileInfo -> (bool, Api.FileInfo),
                   hash: seq<Api.FileInfo> -> seq<bv8>)
    ensures var f := Forwarded(ys, pred);
            Deserialized(Framed(ys, sig), pred, hash) ==
            (f.0, if f.1 || sig == hash(ys) then None else Some(SignatureMismatchError))
  {
    EntriesOfFramed(ys, sig, 0, [], pred, hash);
    assert ys[..0] == [] && ys[0..] == ys;
    assert Framed(ys, sig)[0] == TInt(Version);
    assert [] + Forwarded(ys, pred).0 == Forwarded(ys, pred).0;
  }

  /** Round trip: reading what Serialize wrote, keeping everything, yields the
      entries and no error. */
  lemma RoundTrip(xs: seq<Api.FileInfo>, hash: seq<Api.FileInfo> -> seq<bv8>)
    ensures Deserialized(Encoded(xs, hash), AcceptAll, hash) == (xs, None)
  {
    ReadFramed(xs, hash(xs), AcceptAll, hash);
    ForwardedAll(xs);
  }

  /** A signature that is not the hash of the entries is reported, after all entries went out. */
  lemma TamperedSignature(xs: seq<Api.FileInfo>, sig: seq<bv8>, hash: seq<Api.FileInfo> -> seq<bv8>)
    requires sig != hash(xs)
    ensures Deserialized(Framed(xs, sig), AcceptAll, hash) == (xs, Some(SignatureMismatchError))
  {
    ReadFramed(xs, sig, AcceptAll, hash);
    ForwardedAll(xs);
  }

  /** A rejected entry stops reading: nothing after it goes out, and even a
      wrong signature goes unnoticed. */
  lemma RejectionSkipsSignature(x: Api.FileInfo, ys: seq<Api.FileInfo>, sig: seq<bv8>,
                                pred: Api.FileInfo -> (bool, Api.FileInfo), hash: seq<Api.FileInfo> -> seq<bv8>)
    requires !pred(x).0
    ensures Deserialized(Framed([x] + ys, sig), pred, hash) == ([], None)
  {
    ReadFramed([x] + ys, sig, pred, hash);
  }

  /** A header version other than 1 is rejected before anything is read. */
  lemma WrongVersion(v: int, rest: seq<Token>, pred: Api.FileInfo -> (bool, Api.FileInfo),
                     hash: seq<Api.FileInfo> -> seq<bv8>)
    requires v != Version
    ensures Deserialized([TInt(v)] + rest, pred, hash) == ([], Some(DecodeError(VersionMsg(v))))
  {
  }

  /** A stream that ends without the marker is a decode error (EOF), after every entry went out. */
  lemma TruncatedStream(xs: seq<Api.FileInfo>, hash: seq<Api.FileInfo> -> seq<bv8>)
    ensures Deserialized([TInt(Version)] + Infos(xs), AcceptAll, hash) == (xs, Some(DecodeError(EOFText)))
  {
    TruncatedFrom(xs, 0, [], hash);
    assert xs[..0] == [] && xs[0..] == xs && [] + xs == xs;
    assert ([TInt(Version)] + Infos(xs))[0] == TInt(Version);
  }

  lemma {:induction false} TruncatedFrom(xs: seq<Api.FileInfo>, k: nat, out: seq<Api.FileInfo>,
                                         hash: seq<Api.FileInfo> -> seq<bv8>)
    requires k <= |xs|
    ensures Entries([TInt(Version)] + Infos(xs), 1 + k, xs[..k], out, AcceptAll, hash) ==
            (out + xs[k..], Some(DecodeError(EOFText)))
    decreases |xs| - k
  {
    var s := [TInt(Version)] + Infos(xs);
    if k == |xs| {
      MarkerEndsEntries();
      assert xs[k..] == [] && out + [] == out;
    } else {
      assert s[1 + k] == TInfo(xs[k]);
      assert xs[..k] + [xs[k]] == xs[..k + 1];
      TruncatedFrom(xs, k + 1, out + [xs[k]], hash);
      assert out + [xs[k]] + xs[k + 1..] == out + xs[k..];
    }
  }

  /** A damaged entry whose error is not a type mismatch is a decode error. */
  lemma CorruptEntry(xs: seq<Api.FileInfo>, text: string, rest: seq<Token>, hash: seq<Api.FileInfo> -> seq<bv8>)
    requires !Text.Contains(text, MismatchPhrase)
    ensures Deserialized([TInt(Version)] + Infos(xs) + [TCorrupt(text)] + rest, AcceptAll, hash) ==
            (xs, Some(DecodeError(text)))
  {
    CorruptFrom(xs, text, rest, 0, [], hash);
    assert xs[..0] == [] && xs[0..] == xs && [] + xs == xs;
    assert ([TInt(Version)] + Infos(xs) + [TCorrupt(text)] + rest)[0] == TInt(Version);
  }

  lemma {:induction false} CorruptFrom(xs: seq<Api.FileInfo>, text: string, rest: seq<Token>, k: nat,
                                       out: seq<Api.FileInfo>, hash: seq<Api.FileInfo> -> seq<bv8>)
    requires !Text.Contains(text, MismatchPhrase) && k <= |xs|
    ensures Entries([TInt(Version)] + Infos(xs) + [TCorrupt(text)] + rest, 1 + k, xs[..k], out, AcceptAll, hash) ==
            (out + xs[k..], Some(DecodeError(text)))
    decreases |xs| - k
  {
    var s := [TInt(Version)] + Infos(xs) + [TCorrupt(text)] + rest;
    if k == |xs| {
      assert s[1 + k] == TCorrupt(text);
      assert xs[k..] == [] && out + [] == out;
    } else {
      assert s[1 + k] == TInfo(xs[k]);
      assert xs[..k] + [xs[k]] == xs[..k + 1];
      CorruptFrom(xs, text, rest, k + 1, out + [xs[k]], hash);
      assert out + [xs[k]] + xs[k + 1..] == out + xs[k..];
    }
  }
}
