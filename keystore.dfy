/** The two persistent tables the service works on: the platform key store (alias to key
    entry) and the app's file area (blob file to bytes), and deletion of a key from both. */
module KeyStore {
  import opened Text
  import opened Tiers
  import opened Names

  /** A key-store entry: the tier it was generated at, whether using it needs a recent user
      authentication, and its (opaque) key material. */
  datatype KeyEntry = KeyEntry(level: AuthenticationLevel, needsAuth: bool, secret: int)

  /** A file: its bytes and its last-modification time. */
  datatype Blob = Blob(bytes: seq<byte>, modified: int)

  /** A blob file of the service: the ciphertext file or the vector file of a key. */
  datatype BlobName = Ciphertext(owner: string) | Vector(owner: string)

  /** The name the file has on disk. */
  function FileName(b: BlobName): string
  {
    match b
    case Ciphertext(k) => HdFile(k)
    case Vector(k) => IvFile(k)
  }

  /** Distinct blob files have distinct names on disk, so keying the file area by `BlobName`
      loses nothing. */
  lemma FileNameInjective(b: BlobName, b': BlobName)
    ensures FileName(b) == FileName(b') <==> b == b'
  {
    BlobNames(b.owner, b'.owner);
    BlobNames(b'.owner, b.owner);
  }

  datatype Stores = Stores(keys: map<string, KeyEntry>, files: map<BlobName, Blob>)

  /** Key `k`, its ciphertext file and its vector file all exist. */
  predicate Complete(s: Stores, k: string)
  {
    k in s.keys && Ciphertext(k) in s.files && Vector(k) in s.files
  }

  /** None of key `k`, its ciphertext file and its vector file exists. */
  predicate Absent(s: Stores, k: string)
  {
    k !in s.keys && Ciphertext(k) !in s.files && Vector(k) !in s.files
  }

  /** No key is half-written: every alias has both its files, and every file belongs to an alias. */
  ghost predicate Consistent(s: Stores)
  {
    && (forall k :: k in s.keys ==> Complete(s, k))
    && (forall b :: b in s.files ==> b.owner in s.keys)
  }

  /** Key `k` and its two files are the same in `s` and `r`. */
  predicate SameKey(s: Stores, r: Stores, k: string)
  {
    && (k in s.keys <==> k in r.keys)
    && (k in s.keys ==> r.keys[k] == s.keys[k])
    && (Ciphertext(k) in s.files <==> Ciphertext(k) in r.files)
    && (Ciphertext(k) in s.files ==> r.files[Ciphertext(k)] == s.files[Ciphertext(k)])
    && (Vector(k) in s.files <==> Vector(k) in r.files)
    && (Vector(k) in s.files ==> r.files[Vector(k)] == s.files[Vector(k)])
  }

  /** `deleteKey`: removes the ciphertext file, the vector file and the alias of `k`, each if present. */
  function DeleteKey(s: Stores, k: string): (r: Stores)
    ensures Absent(r, k)
  {
    Stores(s.keys - {k}, s.files - {Ciphertext(k), Vector(k)})
  }

  /** Deleting a key touches nothing that belongs to another key. */
  lemma DeleteKeyFrame(s: Stores, k: string, k': string)
    requires k' != k
    ensures SameKey(s, DeleteKey(s, k), k')
  {
  }

  /** Deleting a key twice is deleting it once, and deleting an absent key changes nothing. */
  lemma DeleteKeyIdempotent(s: Stores, k: string)
    ensures DeleteKey(DeleteKey(s, k), k) == DeleteKey(s, k)
    ensures Absent(s, k) ==> DeleteKey(s, k) == s
  {
    if Absent(s, k) {
      assert s.keys - {k} == s.keys;
      assert s.files - {Ciphertext(k), Vector(k)} == s.files;
    }
  }

  /** Deleting two keys in either order gives the same stores. */
  lemma DeleteKeyCommutes(s: Stores, a: string, b: string)
    ensures DeleteKey(DeleteKey(s, a), b) == DeleteKey(DeleteKey(s, b), a)
  {
    assert s.keys - {a} - {b} == s.keys - {b} - {a};
    assert s.files - {Ciphertext(a), Vector(a)} - {Ciphertext(b), Vector(b)}
        == s.files - {Ciphertext(b), Vector(b)} - {Ciphertext(a), Vector(a)};
  }

  /** Deleting a key keeps the stores free of half-written keys. */
  lemma DeleteKeyConsistent(s: Stores, k: string)
    requires Consistent(s)
    ensures Consistent(DeleteKey(s, k))
  {
  }

  /** `deleteHDKey`: deletes key `k` only when both its ciphertext file and its alias exist. */
  function DeleteHDKey(s: Stores, k: string): (r: Stores)
    ensures Ciphertext(k) in s.files && k in s.keys ==> Absent(r, k)
    ensures Ciphertext(k) !in s.files || k !in s.keys ==> r == s
    ensures forall k' :: k' != k ==> SameKey(s, r, k')
  {
    if Ciphertext(k) in s.files && k in s.keys then DeleteKey(s, k) else s
  }

  /** On consistent stores the guarded delete is the plain delete: afterwards key `k` is absent,
      whether or not it existed before. */
  lemma DeleteHDKeyIsDeleteKey(s: Stores, k: string)
    requires Consistent(s)
    ensures DeleteHDKey(s, k) == DeleteKey(s, k)
    ensures Absent(DeleteHDKey(s, k), k)
  {
    assert Vector(k) in s.files ==> Vector(k).owner in s.keys;
    DeleteKeyIdempotent(s, k);
  }
}
