/** How key-store aliases, backup aliases, blob file names and displayed addresses are formed. */
module Names {

  /** The marker appended to an address to name its non-authenticated backup key. */
  const NO_AUTH_LABEL: string := "-noauth-"

  /** `walletAddr + NO_AUTH_LABEL`: the alias of the backup key of an address. */
  function BackupAlias(address: string): (r: string)
    ensures |r| == |address| + |NO_AUTH_LABEL|
  {
    address + NO_AUTH_LABEL
  }

  /** The file holding the ciphertext of the seed phrase under key `k`. */
  function HdFile(k: string): string { k + "hd" }

  /** The file holding the initialisation vector used for `HdFile(k)`. */
  function IvFile(k: string): string { k + "iv" }

  /** The ciphertext file of one key is never the vector file of any key, and each kind of
      file name determines its key. */
  lemma BlobNames(k: string, k': string)
    ensures HdFile(k) != IvFile(k')
    ensures HdFile(k) == HdFile(k') <==> k == k'
    ensures IvFile(k) == IvFile(k') <==> k == k'
  {
    assert HdFile(k)[|HdFile(k)| - 1] == 'd';
    assert IvFile(k')[|IvFile(k')| - 1] == 'v';
    assert HdFile(k)[..|k|] == k && HdFile(k')[..|k'|] == k';
    assert IvFile(k)[..|k|] == k && IvFile(k')[..|k'|] == k';
  }

  /** True if `s` starts with `prefix` (`String.startsWith`). */
  predicate StartsWith(s: string, prefix: string)
  {
    |prefix| <= |s| && s[..|prefix|] == prefix
  }

  /** True if `sub` occurs somewhere in `s` (`String.contains`). */
  predicate Contains(s: string, sub: string)
    decreases |s|
  {
    StartsWith(s, sub) || (|s| > 0 && Contains(s[1..], sub))
  }

  /** A name ending in `sub` contains `sub`; in particular every backup alias carries the marker. */
  lemma {:induction false} ContainsSuffix(p: string, sub: string)
    ensures Contains(p + sub, sub)
    decreases |p|
  {
    if p == [] {
      assert p + sub == sub;
      assert StartsWith(sub, sub);
    } else {
      assert (p + sub)[1..] == p[1..] + sub;
      ContainsSuffix(p[1..], sub);
    }
  }

  lemma BackupAliasIsMarked(address: string)
    ensures Contains(BackupAlias(address), NO_AUTH_LABEL)
  {
    ContainsSuffix(address, NO_AUTH_LABEL);
  }

  /** The displayed form of an address: "0x" is put in front unless it is already there. */
  function HexPrefixed(address: string): (r: string)
    ensures StartsWith(r, "0x")
    ensures |address| <= |r| <= |address| + 2
    ensures r[|r| - |address|..] == address
  {
    if StartsWith(address, "0x") then address else "0x" + address
  }

  /** Prefixing is idempotent, and changes nothing on an address that already has the prefix. */
  lemma HexPrefixedIdempotent(address: string)
    ensures HexPrefixed(HexPrefixed(address)) == HexPrefixed(address)
    ensures StartsWith(address, "0x") <==> HexPrefixed(address) == address
  {
  }
}
