/** The cache's key layout: when two of its keys are the same key. */
module CacheKeys {

  const TAG_LIST_SUFFIX := ":tags"

  predicate IsReadableChar(c: char) {
    'A' <= c <= 'Z' || 'a' <= c <= 'z' || '0' <= c <= '9' || c in "/_.:@-"
  }

  predicate IsReadable(key: string) {
    1 <= |key| <= 200 && forall i :: 0 <= i < |key| ==> IsReadableChar(key[i])
  }

  /** A key an operator can type stays as it is; any other becomes its digest. */
  function PageKeyFor(key: string, digest: string -> string): string {
    if IsReadable(key) then key else "sha256:" + digest(key)
  }

  function PageKey(namespace: string, key: string): string {
    namespace + "page:" + key
  }

  function TagListKey(namespace: string, key: string): string {
    PageKey(namespace, key) + TAG_LIST_SUFFIX
  }

  function TagKey(namespace: string, tag: string): string {
    namespace + "tag:" + tag
  }

  function StampKey(namespace: string, tag: string): string {
    namespace + "purged:" + tag
  }

  lemma {:induction false} SharedPrefix(a: string, x: string, y: string)
    ensures a + x == a + y <==> x == y
  {
    if a + x == a + y {
      assert (a + x)[|a|..] == x && (a + y)[|a|..] == y;
    }
  }

  lemma {:induction false} TwoPrefixes(a: string, b: string, x: string, y: string)
    ensures a + b + x == a + b + y <==> x == y
  {
    SharedPrefix(a + b, x, y);
  }

  /** Paths keep their own entry, as far as the digest keeps two unreadable ones apart. */
  lemma {:induction false} PageKeysAreDistinct(a: string, b: string, digest: string -> string)
    requires |a| > 0 && |b| > 0 && a[0] == '/' && b[0] == '/'
    requires PageKeyFor(a, digest) == PageKeyFor(b, digest)
    ensures a == b || (!IsReadable(a) && !IsReadable(b) && digest(a) == digest(b))
  {
    if !IsReadable(a) && !IsReadable(b) {
      SharedPrefix("sha256:", digest(a), digest(b));
    } else if IsReadable(a) != IsReadable(b) {
      assert false;
    }
  }

  /** Keys of different families never meet, with one exception. */
  lemma {:induction false} FamiliesAreApart(namespace: string, key: string, tag: string, other: string)
    ensures PageKey(namespace, key) != TagKey(namespace, tag)
    ensures PageKey(namespace, key) != StampKey(namespace, tag)
    ensures TagListKey(namespace, key) != TagKey(namespace, tag)
    ensures TagListKey(namespace, key) != StampKey(namespace, tag)
    ensures TagKey(namespace, other) != StampKey(namespace, tag)
  {
    var n := |namespace|;
    assert PageKey(namespace, key)[n + 1] == 'a' && PageKey(namespace, key)[n] == 'p';
    assert TagListKey(namespace, key)[n + 1] == 'a' && TagListKey(namespace, key)[n] == 'p';
    assert TagKey(namespace, tag)[n] == 't' && TagKey(namespace, other)[n] == 't';
    assert StampKey(namespace, tag)[n] == 'p' && StampKey(namespace, tag)[n + 1] == 'u';
  }

  lemma {:induction false} FamiliesAreInjective(namespace: string, a: string, b: string)
    ensures PageKey(namespace, a) == PageKey(namespace, b) <==> a == b
    ensures TagListKey(namespace, a) == TagListKey(namespace, b) <==> a == b
    ensures TagKey(namespace, a) == TagKey(namespace, b) <==> a == b
    ensures StampKey(namespace, a) == StampKey(namespace, b) <==> a == b
  {
    TwoPrefixes(namespace, "page:", a, b);
    TwoPrefixes(namespace, "tag:", a, b);
    TwoPrefixes(namespace, "purged:", a, b);
    if TagListKey(namespace, a) == TagListKey(namespace, b) {
      DropSuffix(PageKey(namespace, a), PageKey(namespace, b));
    }
  }

  lemma {:induction false} DropSuffix(a: string, b: string)
    requires a + TAG_LIST_SUFFIX == b + TAG_LIST_SUFFIX
    ensures a == b
  {
    assert (a + TAG_LIST_SUFFIX)[..|a|] == a && (b + TAG_LIST_SUFFIX)[..|b|] == b;
  }

  /** The exception: one page's entry sits where another keeps its tag list. */
  lemma {:induction false} PageMeetsTagListIff(namespace: string, page: string, listed: string)
    ensures PageKey(namespace, page) == TagListKey(namespace, listed) <==> page == listed + TAG_LIST_SUFFIX
  {
    assert TagListKey(namespace, listed) == namespace + "page:" + (listed + TAG_LIST_SUFFIX);
    TwoPrefixes(namespace, "page:", page, listed + TAG_LIST_SUFFIX);
  }

  /** Nothing in the readable form prevents it. */
  lemma {:induction false} ReadablePagesCanMeet(namespace: string, listed: string, digest: string -> string)
    requires IsReadable(listed) && |listed| <= 195
    ensures var page := listed + TAG_LIST_SUFFIX;
            PageKey(namespace, PageKeyFor(page, digest)) == TagListKey(namespace, PageKeyFor(listed, digest))
  {
    var page := listed + TAG_LIST_SUFFIX;
    assert IsReadable(page) by {
      assert forall i :: 0 <= i < |TAG_LIST_SUFFIX| ==> IsReadableChar(TAG_LIST_SUFFIX[i]);
    }
    PageMeetsTagListIff(namespace, page, listed);
  }
}
