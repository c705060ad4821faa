/**
 * AESGCMCrypto: the key file that is created once and read back on every
 * start, and the ciphertext frame base64(nonce ++ AES-GCM output).
 * AES-GCM, base64 and UTF-8 are library code; they appear here as opaque
 * functions, and the round trips they guarantee are the predicate Sound.
 */
module Crypto {
  import opened Wrappers

  type byte = b: int | 0 <= b < 256
  type Bytes = seq<byte>

  /** secrets.token_bytes(12): the nonce drawn for every encryption. */
  const NonceLength: nat := 12

  /** AESGCM.generate_key(bit_length=128): the key length of a fresh key file. */
  const KeyLength: nat := 16

  /** The length of the authentication tag AES-GCM appends to every ciphertext. */
  const TagLength: nat := 16

  /** AESGCM accepts 128-, 192- and 256-bit keys and raises ValueError otherwise. */
  predicate ValidKeyLength(n: int)
  {
    n == 16 || n == 24 || n == 32
  }

  type AesKey = k: Bytes | ValidKeyLength(|k|) witness seq(16, i => 0)

  /**
   * The library calls: AESGCM(key).encrypt(nonce, data, None),
   * AESGCM(key).decrypt(nonce, data, None) (None when the tag does not verify
   * or the library rejects the nonce), b64encode, b64decode, str.encode and
   * bytes.decode.
   */
  datatype Primitives = Primitives(
    seal: (AesKey, Bytes, Bytes) -> Bytes,
    open: (AesKey, Bytes, Bytes) -> Option<Bytes>,
    toBase64: Bytes -> Bytes,
    fromBase64: Bytes -> Option<Bytes>,
    utf8Encode: string -> Bytes,
    utf8Decode: Bytes -> Option<string>)

  /**
   * What the libraries promise: AEAD output is the message plus a 16-byte tag,
   * data shorter than a tag never opens, AEAD decryption undoes encryption,
   * and base64 and UTF-8 decoding undo their encodings.
   */
  ghost predicate Sound(p: Primitives)
  {
    && (forall key: AesKey, nonce: Bytes, msg: Bytes :: |p.seal(key, nonce, msg)| == |msg| + TagLength)
    && (forall key: AesKey, nonce: Bytes, body: Bytes | |body| < TagLength :: p.open(key, nonce, body) == None)
    && (forall key: AesKey, nonce: Bytes, msg: Bytes | |nonce| == NonceLength ::
          p.open(key, nonce, p.seal(key, nonce, msg)) == Some(msg))
    && (forall b: Bytes :: p.fromBase64(p.toBase64(b)) == Some(b))
    && (forall s: string :: p.utf8Decode(p.utf8Encode(s)) == Some(s))
  }

  // ---------------------------------------------------------------------
  // The ciphertext frame
  // ---------------------------------------------------------------------

  /** `raw[:12], raw[12:]`; a frame shorter than a nonce yields a short nonce and no body. */
  function SplitFrame(raw: Bytes): (parts: (Bytes, Bytes))
    ensures parts.0 + parts.1 == raw
    ensures |parts.0| == if |raw| < NonceLength then |raw| else NonceLength
  {
    var n := if |raw| < NonceLength then |raw| else NonceLength;
    (raw[..n], raw[n..])
  }

  /** Splitting `nonce + body` recovers the nonce and the body. */
  lemma SplitFrameOfConcat(nonce: Bytes, body: Bytes)
    requires |nonce| == NonceLength
    ensures SplitFrame(nonce + body) == (nonce, body)
  {
  }

  // ---------------------------------------------------------------------
  // The key file
  // ---------------------------------------------------------------------

  datatype KeyLoad = KeyLoad(files: map<string, Bytes>, key: Bytes)

  /**
   * Write `generated` to `path` when no file is there, then read the file.
   * The key is what the file holds, so it is the new key only on a fresh path.
   */
  function LoadOrCreateKey(files: map<string, Bytes>, path: string, generated: Bytes): (r: KeyLoad)
    ensures path in r.files && r.key == r.files[path]
    ensures path in files ==> r.files == files && r.key == files[path]
    ensures path !in files ==> r.files == files[path := generated] && r.key == generated
  {
    var after := if path in files then files else files[path := generated];
    KeyLoad(after, after[path])
  }

  /** A second load of the same path rewrites nothing and returns the same key. */
  lemma SecondLoadIsStable(files: map<string, Bytes>, path: string, g1: Bytes, g2: Bytes)
    ensures var first := LoadOrCreateKey(files, path, g1);
      LoadOrCreateKey(first.files, path, g2) == first
  {
  }

  /** Loading a key touches no file but its own. */
  lemma LoadOrCreateKeyFrame(files: map<string, Bytes>, path: string, generated: Bytes, other: string)
    requires other != path
    ensures var r := LoadOrCreateKey(files, path, generated);
      (other in r.files <==> other in files) && (other in files ==> r.files[other] == files[other])
  {
  }

  datatype KeyError = InvalidKeyLength

  datatype CryptoError = MalformedBase64 | AuthenticationFailed | InvalidUtf8

  /** The file system, as a map from path to file contents. */
  class FileSystem {
    var files: map<string, Bytes>

    constructor (files: map<string, Bytes>)
      ensures this.files == files
    {
      this.files := files;
    }
  }

  class AesGcmCrypto {
    const key: AesKey
    const prims: Primitives

    constructor (key: AesKey, prims: Primitives)
      ensures this.key == key && this.prims == prims
    {
      this.key := key;
      this.prims := prims;
    }

    /**
     * AESGCMCrypto(key_path): create the key file with the freshly generated
     * 128-bit key when it is absent, read the file, and build the cipher from
     * what was read, which fails unless it is 16, 24 or 32 bytes long.
     */
    static method Load(fs: FileSystem, keyPath: string, generated: Bytes, prims: Primitives)
      returns (r: Result<AesGcmCrypto, KeyError>)
      requires |generated| == KeyLength
      modifies fs
      ensures fs.files == LoadOrCreateKey(old(fs.files), keyPath, generated).files
      ensures r.Success? <==> ValidKeyLength(|fs.files[keyPath]|)
      ensures r.Success? ==> fresh(r.value) && r.value.key == fs.files[keyPath] && r.value.prims == prims
    {
      if keyPath !in fs.files {
        fs.files := fs.files[keyPath := generated];
      }
      var key := fs.files[keyPath];
      if ValidKeyLength(|key|) {
        var c := new AesGcmCrypto(key, prims);
        r := Success(c);
      } else {
        r := Failure(InvalidKeyLength);
      }
    }

    /** `b64encode(nonce + aes.encrypt(nonce, data.encode(), None))`. */
    function Encrypt(data: string, nonce: Bytes): Bytes
      requires |nonce| == NonceLength
    {
      prims.toBase64(nonce + prims.seal(key, nonce, prims.utf8Encode(data)))
    }

    /** `aes.decrypt(raw[:12], raw[12:], None).decode()` where `raw = b64decode(blob)`. */
    function Decrypt(blob: Bytes): Result<string, CryptoError>
    {
      match prims.fromBase64(blob)
      case None => Failure(MalformedBase64)
      case Some(raw) =>
        var (nonce, body) := SplitFrame(raw);
        match prims.open(key, nonce, body)
        case None => Failure(AuthenticationFailed)
        case Some(plain) =>
          match prims.utf8Decode(plain)
          case None => Failure(InvalidUtf8)
          case Some(text) => Success(text)
    }

    /**
     * A frame too short to hold a nonce and a tag is rejected; in particular
     * one shorter than the nonce never decrypts.
     */
    lemma DecryptShortFrame(blob: Bytes)
      requires Sound(prims)
      requires prims.fromBase64(blob).Some?
      requires |prims.fromBase64(blob).value| < NonceLength + TagLength
      ensures Decrypt(blob) == Failure(AuthenticationFailed)
    {
    }

    /** Every blob Encrypt makes decodes to its nonce followed by the AEAD output. */
    lemma EncryptFrame(data: string, nonce: Bytes)
      requires Sound(prims)
      requires |nonce| == NonceLength
      ensures prims.fromBase64(Encrypt(data, nonce)).Some?
      ensures SplitFrame(prims.fromBase64(Encrypt(data, nonce)).value)
        == (nonce, prims.seal(key, nonce, prims.utf8Encode(data)))
    {
    }

    /** Under the libraries' round trips, decrypting an encrypted text gives it back. */
    lemma DecryptEncrypt(data: string, nonce: Bytes)
      requires Sound(prims)
      requires |nonce| == NonceLength
      ensures Decrypt(Encrypt(data, nonce)) == Success(data)
    {
    }
  }

  /**
   * Two starts against the same key path: the second reads the key the first
   * created or found, so both ciphers hold the same key and historical blobs
   * stay decryptable.
   */
  method LoadTwice(fs: FileSystem, keyPath: string, g1: Bytes, g2: Bytes, prims: Primitives)
    returns (first: Result<AesGcmCrypto, KeyError>, second: Result<AesGcmCrypto, KeyError>)
    requires |g1| == KeyLength && |g2| == KeyLength
    modifies fs
    ensures keyPath !in old(fs.files) ==> first.Success? && first.value.key == g1
    ensures first.Success? <==> second.Success?
    ensures first.Success? ==> second.value.key == first.value.key
    ensures first.Success? ==> first.value.prims == prims && second.value.prims == prims
    ensures fs.files == LoadOrCreateKey(old(fs.files), keyPath, g1).files
    ensures first.Success? && Sound(prims) ==>
      forall s: string, n: Bytes | |n| == NonceLength ::
        second.value.Decrypt(first.value.Encrypt(s, n)) == Success(s)
  {
    first := AesGcmCrypto.Load(fs, keyPath, g1, prims);
    second := AesGcmCrypto.Load(fs, keyPath, g2, prims);
    if first.Success? && Sound(prims) {
      forall s: string, n: Bytes | |n| == NonceLength
        ensures second.value.Decrypt(first.value.Encrypt(s, n)) == Success(s)
      {
        first.value.DecryptEncrypt(s, n);
      }
    }
  }
}
