/**
 * Long award identifiers: `"W91-"`, the first ten characters of the upper-cased
 * MD5 hex digest of the short identifier, `"-"`, then the short identifier.
 */
module AwardIds {

  predicate IsLowerHex(c: char)
  {
    '0' <= c <= '9' || 'a' <= c <= 'f'
  }

  predicate IsUpperHex(c: char)
  {
    '0' <= c <= '9' || 'A' <= c <= 'F'
  }

  /** What `hexdigest()` returns: 32 lower-case hex characters. */
  type HexDigest = s: seq<char> | |s| == 32 && forall i :: 0 <= i < |s| ==> IsLowerHex(s[i])
    witness "00000000000000000000000000000000"

  /** ASCII upper-casing, which is all `str.upper` does to a hex digest. */
  function UpperChar(c: char): (u: char)
    ensures IsLowerHex(c) ==> IsUpperHex(u)
  {
    if 'a' <= c <= 'z' then (c as int - 32) as char else c
  }

  function Upper(s: seq<char>): (u: seq<char>)
    ensures |u| == |s| && forall i :: 0 <= i < |s| ==> u[i] == UpperChar(s[i])
  {
    seq(|s|, i requires 0 <= i < |s| => UpperChar(s[i]))
  }

  /** The long identifier of an award; `md5` maps a short identifier to the hex
      digest of its encoded bytes. */
  function MakeLongId(md5: string -> HexDigest, shortId: string): (id: string)
    ensures |id| == 15 + |shortId|
    ensures id[..4] == "W91-" && id[14] == '-' && id[15..] == shortId
    ensures forall i :: 4 <= i < 14 ==> IsUpperHex(id[i]) && id[i] == UpperChar(md5(shortId)[i - 4])
  {
    var hex := Upper(md5(shortId));
    "W91-" + hex[..10] + "-" + shortId
  }

  /** Different short identifiers never share a long identifier, whatever the digests. */
  lemma MakeLongIdInjective(md5: string -> HexDigest, a: string, b: string)
    requires MakeLongId(md5, a) == MakeLongId(md5, b)
    ensures a == b
  {
    assert a == MakeLongId(md5, a)[15..];
  }

  /** A long identifier is never the `'N/A'` of the placeholder row. */
  lemma LongIdIsNotPlaceholder(md5: string -> HexDigest, shortId: string)
    ensures MakeLongId(md5, shortId) != "N/A"
  {
    assert |MakeLongId(md5, shortId)| >= 15;
  }
}
