/**
 * Splitting the classpath value into entries the way a StringTokenizer with
 * the path separator as its only delimiter does: tokens are the maximal
 * non-empty runs of non-separator characters, so empty entries vanish.
 */
module ClassPath {
  import opened Names

  /** The length of the run of non-separator characters at the front of s. */
  function RunLength(s: string): (k: nat)
    ensures k <= |s|
    ensures forall i :: 0 <= i < k ==> s[i] != PATH_SEPARATOR
    ensures k < |s| ==> s[k] == PATH_SEPARATOR
  {
    if s == [] || s[0] == PATH_SEPARATOR then 0 else 1 + RunLength(s[1..])
  }

  /** The tokens of s, in order. */
  function Tokens(s: string): (r: seq<string>)
    ensures forall i :: 0 <= i < |r| ==> r[i] != [] && PATH_SEPARATOR !in r[i]
    decreases |s|
  {
    if s == [] then []
    else if s[0] == PATH_SEPARATOR then Tokens(s[1..])
    else
      var k := RunLength(s);
      [s[..k]] + Tokens(s[k..])
  }

  /** The classpath value made of entries written one after another with the separator between them. */
  function Join(entries: seq<string>): string
  {
    if entries == [] then []
    else if |entries| == 1 then entries[0]
    else entries[0] + [PATH_SEPARATOR] + Join(entries[1..])
  }

  lemma {:induction false} RunLengthPrefix(a: string, b: string)
    ensures RunLength(a + [PATH_SEPARATOR] + b) == RunLength(a)
  {
    if a != [] && a[0] != PATH_SEPARATOR {
      assert (a + [PATH_SEPARATOR] + b)[1..] == a[1..] + [PATH_SEPARATOR] + b;
      RunLengthPrefix(a[1..], b);
    }
  }

  /** Cutting the classpath at any separator splits its tokens there: nothing is merged, lost or invented. */
  lemma {:induction false} TokensSplit(a: string, b: string)
    ensures Tokens(a + [PATH_SEPARATOR] + b) == Tokens(a) + Tokens(b)
    decreases |a|
  {
    var s := a + [PATH_SEPARATOR] + b;
    if a == [] {
      assert s[1..] == b;
    } else if a[0] == PATH_SEPARATOR {
      assert s[1..] == a[1..] + [PATH_SEPARATOR] + b;
      TokensSplit(a[1..], b);
    } else {
      var k := RunLength(a);
      RunLengthPrefix(a, b);
      assert s[..k] == a[..k];
      assert s[k..] == a[k..] + [PATH_SEPARATOR] + b;
      TokensSplit(a[k..], b);
    }
  }

  /** A single entry without separators is one token. */
  lemma {:induction false} SingleToken(t: string)
    requires t != [] && PATH_SEPARATOR !in t
    ensures Tokens(t) == [t]
  {
    var k := RunLength(t);
    assert t[..k] == t;
    assert t[k..] == [];
  }

  /** A value made only of separators (the empty value included) has no tokens. */
  lemma {:induction false} NoTokens(s: string)
    requires forall i :: 0 <= i < |s| ==> s[i] == PATH_SEPARATOR
    ensures Tokens(s) == []
  {
    if s != [] {
      NoTokens(s[1..]);
    }
  }

  /** Tokenizing a joined classpath gives back its entries, each exactly once and in order. */
  lemma {:induction false} TokensJoin(entries: seq<string>)
    requires forall i :: 0 <= i < |entries| ==> entries[i] != [] && PATH_SEPARATOR !in entries[i]
    ensures Tokens(Join(entries)) == entries
  {
    if |entries| == 1 {
      SingleToken(entries[0]);
    } else if |entries| > 1 {
      TokensSplit(entries[0], Join(entries[1..]));
      SingleToken(entries[0]);
      TokensJoin(entries[1..]);
    }
  }

  /** Empty entries (leading, trailing or doubled separators) contribute nothing. */
  lemma EmptyEntriesSkipped(a: string, b: string)
    ensures Tokens(a + [PATH_SEPARATOR, PATH_SEPARATOR] + b) == Tokens(a) + Tokens(b)
  {
    assert a + [PATH_SEPARATOR, PATH_SEPARATOR] + b == a + [PATH_SEPARATOR] + ([PATH_SEPARATOR] + b);
    TokensSplit(a, [PATH_SEPARATOR] + b);
    assert ([PATH_SEPARATOR] + b)[1..] == b;
  }
}
