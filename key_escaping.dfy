/**
  Key normalisation of the image store: a caller's key becomes the name of one
  file in the images directory. Every path separator `/` is rewritten to the
  escape character `\`, so a key never names a sub-directory, and the empty key
  is refused by every public store operation.
 */
module KeyEscaping {

  const Separator: char := '/'
  const Escape: char := '\\'

  /** The check every public store operation makes on the escaped key. */
  predicate IsKeyEmpty(key: string) {
    key == ""
  }

  /** The file-name character that stands for `c`. */
  function EscapeChar(c: char): char {
    if c == Separator then Escape else c
  }

  /** `key.replacingOccurrences(of: "/", with: "\\")`, scanning left to right. */
  function EscapeKey(key: string): (r: string)
    ensures |r| == |key|
  {
    if key == [] then [] else [EscapeChar(key[0])] + EscapeKey(key[1..])
  }

  /** The two characters that end up as the same file-name character `\`. */
  predicate IsSlashLike(c: char) {
    c == Separator || c == Escape
  }

  /**
    Two keys name the same file when they agree everywhere except
    that one may have `/` where the other has `\`.
   */
  predicate SameFileName(k1: string, k2: string) {
    |k1| == |k2| &&
    forall i :: 0 <= i < |k1| ==> k1[i] == k2[i] || (IsSlashLike(k1[i]) && IsSlashLike(k2[i]))
  }

  /** Escaping keeps the length and rewrites each character on its own. */
  lemma {:induction false} EscapeKeyAt(key: string)
    ensures |EscapeKey(key)| == |key|
    ensures forall i :: 0 <= i < |key| ==>
      EscapeKey(key)[i] == (if key[i] == Separator then Escape else key[i])
  {
    if key != [] {
      EscapeKeyAt(key[1..]);
      assert EscapeKey(key) == [EscapeChar(key[0])] + EscapeKey(key[1..]);
      forall i | 0 <= i < |key|
        ensures EscapeKey(key)[i] == (if key[i] == Separator then Escape else key[i])
      {
        if i > 0 {
          assert EscapeKey(key)[i] == EscapeKey(key[1..])[i - 1];
          assert key[1..][i - 1] == key[i];
        }
      }
    }
  }

  /** The escaped key is empty exactly when the raw key is, so the empty check after escaping refuses exactly `""`. */
  lemma EscapeKeyEmptyIff(key: string)
    ensures IsKeyEmpty(EscapeKey(key)) <==> key == ""
  {
    EscapeKeyAt(key);
  }

  /** No escaped key contains a separator: it is one path segment. */
  lemma {:induction false} EscapeKeyHasNoSeparator(key: string)
    ensures Separator !in EscapeKey(key)
  {
    EscapeKeyAt(key);
  }

  /** A key without separators is its own file name. */
  lemma {:induction false} EscapeKeyFixesPlainKey(key: string)
    requires Separator !in key
    ensures EscapeKey(key) == key
  {
    if key != [] {
      assert key[0] in key;
      assert forall c :: c in key[1..] ==> c in key;
      EscapeKeyFixesPlainKey(key[1..]);
    }
  }

  /** Escaping twice is escaping once. */
  lemma {:induction false} EscapeKeyIdempotent(key: string)
    ensures EscapeKey(EscapeKey(key)) == EscapeKey(key)
  {
    EscapeKeyHasNoSeparator(key);
    EscapeKeyFixesPlainKey(EscapeKey(key));
  }

  /** Two keys share a file name exactly when they differ only by `/` versus `\`. */
  lemma {:induction false} EscapeKeySameFileIff(k1: string, k2: string)
    ensures EscapeKey(k1) == EscapeKey(k2) <==> SameFileName(k1, k2)
  {
    EscapeKeyAt(k1);
    EscapeKeyAt(k2);
    if EscapeKey(k1) == EscapeKey(k2) {
      forall i | 0 <= i < |k1|
        ensures k1[i] == k2[i] || (IsSlashLike(k1[i]) && IsSlashLike(k2[i]))
      {
        assert EscapeKey(k1)[i] == EscapeKey(k2)[i];
      }
    }
    if SameFileName(k1, k2) {
      forall i | 0 <= i < |k1|
        ensures EscapeKey(k1)[i] == EscapeKey(k2)[i]
      {
      }
    }
  }
}
