/** naming.go: a replica's name is `<base>-<event>`, cut down to Kubernetes'
    63-character name limit (the DNS label limit of section 2.3.4 of RFC 1035,
    as carried into section 2.1 of RFC 1123) by shortening the base and adding
    8 hex characters of a hash of the full name. The hash (SHA-256, hex-encoded,
    first 8 characters) is a parameter: any function into 8 lowercase hex
    characters. */
module Naming {

  /** The Kubernetes name limit. */
  const MaxNameLength: nat := 63

  /** The number of hash characters appended when a name is shortened. */
  const HashLength: nat := 8

  predicate IsLowerHex(c: char) {
    '0' <= c <= '9' || 'a' <= c <= 'f'
  }

  /** The first 8 characters of a hex-encoded digest. */
  type Digest = s: string | |s| == HashLength && forall i :: 0 <= i < |s| ==> IsLowerHex(s[i])
    witness "00000000"

  /** strings.TrimRight(s, "-"): drop every trailing '-'. */
  function TrimRightDash(s: string): (r: string)
    ensures |r| <= |s| && r == s[..|r|]
    ensures r == [] || r[|r| - 1] != '-'
    ensures forall i :: |r| <= i < |s| ==> s[i] == '-'
  {
    if s != [] && s[|s| - 1] == '-' then TrimRightDash(s[..|s| - 1]) else s
  }

  /** truncateName: the name itself when it fits, else its first maxLen
      characters without the dashes that end them. */
  function TruncateName(name: string, maxLen: nat): (r: string)
    ensures |name| <= maxLen ==> r == name
    ensures |name| > maxLen ==> |r| <= maxLen && r == name[..|r|] && (r == [] || r[|r| - 1] != '-')
  {
    if |name| <= maxLen then name
    else
      var t := TrimRightDash(name[..maxLen]);
      assert t == name[..|t|];
      t
  }

  /** The room truncateWithHash leaves for the base: 63 less the `-<event>`
      and `-<hash>` parts, or, when the event leaves no room, 63 less the hash
      part and one more, and never less than one character. */
  function BaseRoom(event: string): (n: int)
    ensures |event| <= 52 ==> n == 53 - |event|
    ensures n >= 1
  {
    var separatorLen := (1 + |event|) + (1 + HashLength);
    var available := MaxNameLength - separatorLen;
    if available < 1 then
      var a := MaxNameLength - (1 + HashLength) - 1;
      if a < 1 then 1 else a
    else available
  }

  /** The hard cut at 63 characters. */
  function CapLength(s: string): (r: string)
    ensures |s| <= MaxNameLength ==> r == s
    ensures |r| <= MaxNameLength && r == s[..|r|]
  {
    if |s| > MaxNameLength then s[..MaxNameLength] else s
  }

  /** truncateWithHash: the shortened base, the event and the hash, joined by
      dashes; cut hard at 63 characters if the event alone is too long. */
  function TruncateWithHash(base: string, event: string, hash: string -> Digest): (r: string)
    ensures |r| <= MaxNameLength
    ensures r == [] || r[|r| - 1] != '-'
  {
    var hashStr := hash(base + "-" + event);
    var result := TruncateName(base, BaseRoom(event)) + ("-" + event) + ("-" + hashStr);
    TrimRightDash(CapLength(result))
  }

  /** GenerateName: `<base>-<event>` when it fits in 63 characters, otherwise the
      hashed, shortened form. */
  function GenerateName(base: string, event: string, hash: string -> Digest): (r: string)
    ensures |base| + 1 + |event| <= MaxNameLength ==> r == base + "-" + event
    ensures |r| <= MaxNameLength
    ensures |base| + 1 + |event| > MaxNameLength ==> r == [] || r[|r| - 1] != '-'
  {
    var suffixed := base + "-" + event;
    if |suffixed| <= MaxNameLength then suffixed else TruncateWithHash(base, event, hash)
  }

  /** When shortening is needed and the event leaves room for at least one base
      character, the name is a prefix of the base, the event and the hash of the
      full name, with no hard cut. */
  lemma GenerateNameShape(base: string, event: string, hash: string -> Digest)
    requires |base| + 1 + |event| > MaxNameLength && |event| <= 52
    ensures var r := GenerateName(base, event, hash);
      var tail := "-" + event + "-" + hash(base + "-" + event);
      |r| >= |tail| && r[|r| - |tail|..] == tail && r[..|r| - |tail|] == base[..|r| - |tail|]
  {
    var h := hash(base + "-" + event);
    var tail := "-" + event + "-" + h;
    var tb := TruncateName(base, 53 - |event|);
    var r := GenerateName(base, event, hash);
    assert r == TruncateWithHash(base, event, hash);
    TruncatedWithHash(base, event, hash);
    assert r == tb + tail;
    assert r[..|tb|] == tb && r[|tb|..] == tail;
  }

  /** With room for the base, truncateWithHash is the shortened base followed by
      the event and the hash, with no hard cut. */
  lemma TruncatedWithHash(base: string, event: string, hash: string -> Digest)
    requires |base| + 1 + |event| > MaxNameLength && |event| <= 52
    ensures TruncateWithHash(base, event, hash) ==
      TruncateName(base, 53 - |event|) + ("-" + event + "-" + hash(base + "-" + event))
    ensures |TruncateName(base, 53 - |event|)| <= 53 - |event| &&
      TruncateName(base, 53 - |event|) == base[..|TruncateName(base, 53 - |event|)|]
  {
    var h := hash(base + "-" + event);
    var tb := TruncateName(base, 53 - |event|);
    var result := tb + ("-" + event) + ("-" + h);
    assert TruncateWithHash(base, event, hash) == TrimRightDash(CapLength(result)) by {
      assert BaseRoom(event) == 53 - |event|;
      assert TruncateName(base, BaseRoom(event)) == tb;
    }
    assert CapLength(result) == result by {
      assert |result| <= MaxNameLength;
    }
    assert TrimRightDash(result) == result by {
      EndsInHash(tb + ("-" + event), h);
    }
    JoinParts(tb, event, h);
  }

  /** The base, `-<event>` and `-<hash>` in a row are the base and the tail. */
  lemma JoinParts(tb: string, event: string, h: string)
    ensures tb + ("-" + event) + ("-" + h) == tb + ("-" + event + "-" + h)
  {
  }

  /** A text ending in `-<hash>` ends in a hex digit, never in '-'. */
  lemma EndsInHash(p: string, h: Digest)
    ensures var s := p + ("-" + h); s != [] && s[|s| - 1] != '-'
  {
    var s := p + ("-" + h);
    assert s[|s| - 1] == h[HashLength - 1];
    assert IsLowerHex(h[HashLength - 1]);
  }

  /** On the unshortened path different events give different names. */
  lemma GenerateNameDistinct(base: string, e1: string, e2: string, hash: string -> Digest)
    requires e1 != e2
    requires |base| + 1 + |e1| <= MaxNameLength && |base| + 1 + |e2| <= MaxNameLength
    ensures GenerateName(base, e1, hash) != GenerateName(base, e2, hash)
  {
    var n1 := GenerateName(base, e1, hash);
    var n2 := GenerateName(base, e2, hash);
    assert n1[|base| + 1..] == e1;
    assert n2[|base| + 1..] == e2;
  }
}
