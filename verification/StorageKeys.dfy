/** The names of stored objects: who owns a key, and why two documents can never share one. */
module StorageKeys {

  /** Position after the last '/' of s. */
  function AfterSlash(s: string): (k: nat)
    ensures k <= |s|
    ensures forall i | k <= i < |s| :: s[i] != '/'
    ensures k > 0 ==> s[k - 1] == '/'
  {
    if s == "" then 0
    else if s[|s| - 1] == '/' then |s|
    else AfterSlash(s[..|s| - 1])
  }

  /** The final component of a POSIX path: empty and "." components do not count. */
  function BaseName(s: string): (name: string)
    ensures '/' !in name && name != "."
    decreases |s|
  {
    var k := AfterSlash(s);
    var last := s[k..];
    if last != "" && last != "." then last
    else if k == 0 then ""
    else BaseName(s[..k - 1])
  }

  /** The components of a path: what stands between its slashes. */
  function Components(s: string): (parts: seq<string>)
    ensures parts != []
  {
    if s == "" then [""]
    else
      var parts, c := Components(s[..|s| - 1]), s[|s| - 1];
      if c == '/' then parts + [""] else parts[|parts| - 1 := parts[|parts| - 1] + [c]]
  }

  function LastCounted(parts: seq<string>): string {
    if parts == [] then ""
    else
      var last := parts[|parts| - 1];
      if last != "" && last != "." then last else LastCounted(parts[..|parts| - 1])
  }

  /** What follows the last slash is the last component. */
  predicate SplitsAtLastSlash(s: string, k: nat)
    requires k <= |s|
  {
    Components(s) == (if k == 0 then [] else Components(s[..k - 1])) + [s[k..]]
  }

  lemma SlashSplits(init: string, s: string)
    requires s == init + ['/']
    ensures AfterSlash(s) == |s| && SplitsAtLastSlash(s, |s|)
  {
    assert s[..|s| - 1] == init && s[|s|..] == "";
  }

  lemma OtherSplits(init: string, c: char, s: string, k: nat)
    requires c != '/' && s == init + [c] && k == AfterSlash(init) && SplitsAtLastSlash(init, k)
    ensures AfterSlash(s) == k && SplitsAtLastSlash(s, k)
  {
    assert s[..|s| - 1] == init && s[k..] == init[k..] + [c];
    var before := if k == 0 then [] else Components(init[..k - 1]);
    if k > 0 {
      assert init[..k - 1] == s[..k - 1];
    }
    var parts := Components(init);
    assert parts == before + [init[k..]];
    assert parts[|parts| - 1 := parts[|parts| - 1] + [c]] == before + [init[k..] + [c]];
  }

  lemma {:induction false} LastComponent(s: string)
    ensures SplitsAtLastSlash(s, AfterSlash(s))
  {
    if s == "" {
      assert Components(s) == [""] && s[0..] == "";
    } else {
      var init, c := s[..|s| - 1], s[|s| - 1];
      assert s == init + [c];
      if c == '/' {
        SlashSplits(init, s);
      } else {
        LastComponent(init);
        OtherSplits(init, c, s, AfterSlash(init));
      }
    }
  }

  /** The base name is the last component that counts, and empty when none does. */
  lemma {:induction false} BaseNameIsLastCounted(s: string)
    ensures BaseName(s) == LastCounted(Components(s))
    decreases |s|
  {
    var k := AfterSlash(s);
    LastComponent(s);
    if k == 0 {
      assert s[k..] == s && LastCounted([]) == "";
      assert Components(s)[..0] == [];
    } else {
      BaseNameIsLastCounted(s[..k - 1]);
      assert Components(s)[..|Components(s)| - 1] == Components(s[..k - 1]);
    }
  }

  lemma {:induction false} NoSlash(s: string)
    requires '/' !in s
    ensures AfterSlash(s) == 0
  {
    if s == "" {
    } else {
      NoSlash(s[..|s| - 1]);
    }
  }

  lemma BaseNameIdempotent(s: string)
    ensures BaseName(BaseName(s)) == BaseName(s)
  {
    var name := BaseName(s);
    NoSlash(name);
    assert name[0..] == name;
  }

  /** Document ids as text: 36 characters of lower-case hexadecimal groups (RFC 9562, section 4). */
  predicate IsId(id: string) {
    |id| == 36 && forall i | 0 <= i < 36 ::
      if i in {8, 13, 18, 23} then id[i] == '-' else '0' <= id[i] <= '9' || 'a' <= id[i] <= 'f'
  }

  const DOCUMENTS := "documents/"
  const STAGING := "documents/_staging/"

  function CanonicalKey(id: string, fileName: string): string {
    DOCUMENTS + id + "_" + BaseName(fileName)
  }

  function StagingKey(id: string, token: string): string {
    STAGING + id + "_" + token
  }

  predicate IsStaging(key: string) {
    STAGING <= key
  }

  /** The document whose operations may touch this key, read off the key alone. */
  function Owner(key: string): string {
    if IsStaging(key) then (if |key| >= 55 then key[19..55] else "")
    else if |key| >= 46 then key[10..46] else ""
  }

  lemma CanonicalOwner(id: string, fileName: string)
    requires IsId(id)
    ensures Owner(CanonicalKey(id, fileName)) == id && !IsStaging(CanonicalKey(id, fileName))
  {
    var key := CanonicalKey(id, fileName);
    assert key[10] == id[0] != '_' == STAGING[10];
    assert key[10..46] == id;
  }

  /** What can be read off a canonical key. */
  lemma KeyReads(id: string, fileName: string)
    requires IsId(id)
    ensures var key := CanonicalKey(id, fileName);
            && |key| >= 47 && key[..10] == "documents/" && key[10..46] == id
            && key[46] == '_' && key[47..] == BaseName(fileName)
  {}

  lemma StagingOwner(id: string, token: string)
    requires IsId(id)
    ensures Owner(StagingKey(id, token)) == id && IsStaging(StagingKey(id, token))
  {
    var key := StagingKey(id, token);
    assert key == STAGING + (id + "_" + token);
    assert key[19..55] == id;
  }

  /** Canonical keys are injective in the document and the file's base name, and never staging keys. */
  lemma KeysInjective(id: string, fileName: string, id': string, fileName': string, token: string)
    requires IsId(id) && IsId(id')
    ensures CanonicalKey(id, fileName) == CanonicalKey(id', fileName') <==>
              id == id' && BaseName(fileName) == BaseName(fileName')
    ensures CanonicalKey(id, fileName) != StagingKey(id', token)
  {
    CanonicalOwner(id, fileName);
    CanonicalOwner(id', fileName');
    StagingOwner(id', token);
    if CanonicalKey(id, fileName) == CanonicalKey(id', fileName') {
      assert CanonicalKey(id, fileName)[47..] == BaseName(fileName);
      assert CanonicalKey(id', fileName')[47..] == BaseName(fileName');
    }
  }
}
