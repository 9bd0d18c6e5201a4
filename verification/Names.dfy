/** Names of the bookmarks that carry replication cursors, and the extractors that recognise them. */
module Names {
  import opened Versions

  const MAX_DATASET_NAME_LEN: nat := 255
  const MAX_UINT64: nat := 0xffff_ffff_ffff_ffff
  const CURSOR_PREFIX := "zrepl_CURSOR"
  const TENTATIVE_PREFIX := "zrepl_CURSORTENTATIVE_"
  const V1_CURSOR_NAME := "zrepl_replication_cursor"

  // ----- Character checks -----

  predicate ValidChar(c: char) {
    '0' <= c <= '9' || 'a' <= c <= 'z' || 'A' <= c <= 'Z' || c == '-' || c == '_' || c == '.' || c == ':' || c == ' '
  }

  predicate ComponentNamecheck(s: string) {
    0 < |s| <= MAX_DATASET_NAME_LEN && (forall c :: c in s ==> ValidChar(c)) && s != "." && s != ".."
  }

  /** The bookmark check of a full name "fs#name" whose `fs` part, of the given length, is a valid filesystem name. */
  predicate BookmarkNamecheck(fsLen: nat, name: string) {
    fsLen + 1 + |name| <= MAX_DATASET_NAME_LEN && ComponentNamecheck(name)
  }

  /** A usable job id also fits the tentative cursor name on "pool/ds" and both hold tags. */
  predicate JobIdOk(job: string) {
    && ComponentNamecheck(job)
    && BookmarkNamecheck(|"pool/ds"|, RawName(TENTATIVE_PREFIX, 0xface601d, job))
    && |"zrepl_STEP_J_"| + |job| <= 255
    && |"zrepl_last_received_J_"| + |job| <= 255
  }

  // ----- Guids in hexadecimal -----

  predicate IsHex(c: char) {
    '0' <= c <= '9' || 'a' <= c <= 'f'
  }

  function HexDigit(d: nat): (c: char)
    requires d < 16
    ensures IsHex(c)
  {
    if d < 10 then '0' + d as char else 'a' + (d - 10) as char
  }

  function HexValue(c: char): (d: nat)
    requires IsHex(c)
    ensures d < 16
  {
    if c <= '9' then (c - '0') as nat else (c - 'a') as nat + 10
  }

  /** `k` lower-case digits, most significant first. */
  function Hex(n: nat, k: nat): (s: string)
    ensures |s| == k && forall c :: c in s ==> IsHex(c)
  {
    if k == 0 then "" else Hex(n / 16, k - 1) + [HexDigit(n % 16)]
  }

  function ParseHex(s: string): (n: nat)
    requires forall c :: c in s ==> IsHex(c)
  {
    if s == "" then 0 else ParseHex(s[..|s| - 1]) * 16 + HexValue(s[|s| - 1])
  }

  function Pow16(k: nat): (p: nat)
    ensures p > 0
  {
    if k == 0 then 1 else 16 * Pow16(k - 1)
  }

  lemma {:induction false} ParseHexOfHex(n: nat, k: nat)
    requires n < Pow16(k)
    ensures ParseHex(Hex(n, k)) == n
  {
    if k > 0 {
      ParseHexOfHex(n / 16, k - 1);
      assert Hex(n, k)[..k - 1] == Hex(n / 16, k - 1);
      assert HexValue(HexDigit(n % 16)) == n % 16;
    }
  }

  // ----- Making and parsing names -----

  function RawName(prefix: string, guid: nat, job: string): (s: string) {
    prefix + "_G_" + Hex(guid, 16) + "_J_" + job
  }

  function MakeJobAndGuidBookmarkName(prefix: string, fsLen: nat, guid: nat, job: string): (r: Option<string>) {
    var name := RawName(prefix, guid, job);
    if BookmarkNamecheck(fsLen, name) then Some(name) else None
  }

  predicate AllHex(s: string) {
    forall c :: c in s ==> IsHex(c)
  }

  /** "_G_", sixteen hex digits, "_J_" and at least one more character start at `p`. */
  predicate SepAt(name: string, p: nat) {
    && p + 22 < |name|
    && name[p..p + 3] == "_G_"
    && AllHex(name[p + 3..p + 19])
    && name[p + 19..p + 22] == "_J_"
  }

  /** Where the greedy first group of the name pattern ends: the last separator at or below `p`, but not at 0. */
  function LastSep(name: string, p: nat): (r: nat)
    ensures r <= p
    ensures r > 0 ==> SepAt(name, r)
    ensures forall q :: r < q <= p ==> !SepAt(name, q)
  {
    if p == 0 then 0
    else if SepAt(name, p) then p
    else LastSep(name, p - 1)
  }

  datatype Parsed = Parsed(guid: nat, job: string)

  function ParseJobAndGuidBookmarkName(fsLen: nat, name: string, prefix: string): (r: Option<Parsed>) {
    if !BookmarkNamecheck(fsLen, name) then None
    else
      var p := LastSep(name, |name|);
      if p == 0 || name[..p] != prefix then None
      else
        var guid, job := ParseHex(name[p + 3..p + 19]), name[p + 22..];
        if JobIdOk(job) then Some(Parsed(guid, job)) else None
  }

  /** The job id continues into a second separator; its leading '_' may be the one in front of the job id. */
  ghost predicate EmbedsSep(job: string) {
    exists q :: 0 <= q <= |job| && SepAt("_" + job, q)
  }

  lemma RawNameParts(prefix: string, guid: nat, job: string)
    ensures var n, s := |prefix|, RawName(prefix, guid, job);
            && |s| == n + 22 + |job|
            && s[..n] == prefix && s[n..n + 3] == "_G_" && s[n + 3..n + 19] == Hex(guid, 16) && s[n + 19..n + 22] == "_J_"
            && s[n + 22..] == job && s[n + 21..] == "_" + job
  {}

  lemma SepSuffix(s: string, m: nat, q: nat)
    requires m <= q && m <= |s|
    ensures SepAt(s, q) <==> SepAt(s[m..], q - m)
  {
    if q + 22 < |s| {
      var t, r := s[m..], q - m;
      assert s[q..q + 3] == t[r..r + 3] && s[q + 3..q + 19] == t[r + 3..r + 19] && s[q + 19..q + 22] == t[r + 19..r + 22];
    }
  }

  /** Behind the separator that was written, another one can only start at the '_' in front of the job id or later. */
  lemma LaterSepsAreInJob(prefix: string, guid: nat, job: string, q: nat)
    requires q > |prefix|
    ensures SepAt(RawName(prefix, guid, job), q) <==> q >= |prefix| + 21 && SepAt("_" + job, q - |prefix| - 21)
  {
    var n, s := |prefix|, RawName(prefix, guid, job);
    RawNameParts(prefix, guid, job);
    if q < n + 21 {
      NoSepInside(s, n, q);
    } else {
      SepSuffix(s, n + 21, q);
    }
  }

  lemma NoSepInside(s: string, n: nat, q: nat)
    requires n + 22 <= |s| && n < q < n + 21
    requires s[n..n + 3] == "_G_" && AllHex(s[n + 3..n + 19]) && s[n + 19..n + 22] == "_J_"
    ensures !SepAt(s, q)
  {
    assert s[n + 1] == s[n..n + 3][1] && s[n + 19] == s[n + 19..n + 22][0] && s[n + 20] == s[n + 19..n + 22][1];
    forall i | n + 3 <= i < n + 19 ensures IsHex(s[i]) {
      assert s[i] == s[n + 3..n + 19][i - n - 3];
    }
    assert q + 3 <= |s| ==> s[q] == s[q..q + 3][0] && s[q + 1] == s[q..q + 3][1];
  }

  /** The written separator is the one that parsing finds exactly when the job id embeds none. */
  lemma LastSepExact(prefix: string, guid: nat, job: string)
    requires prefix != "" && job != ""
    ensures var s := RawName(prefix, guid, job); LastSep(s, |s|) == |prefix| <==> !EmbedsSep(job)
  {
    var n, s := |prefix|, RawName(prefix, guid, job);
    RawNameParts(prefix, guid, job);
    assert SepAt(s, n);
    if EmbedsSep(job) {
      var q :| 0 <= q <= |job| && SepAt("_" + job, q);
      LaterSepsAreInJob(prefix, guid, job, n + 21 + q);
    } else {
      forall q | n < q <= |s| ensures !SepAt(s, q) {
        LaterSepsAreInJob(prefix, guid, job, q);
      }
    }
  }

  /** A name is parsed back to the guid and job id it was made from if and only if the job id embeds no separator. */
  lemma NameRoundTripExact(prefix: string, fsLen: nat, guid: nat, job: string)
    requires prefix != "" && guid <= MAX_UINT64 && JobIdOk(job)
    requires MakeJobAndGuidBookmarkName(prefix, fsLen, guid, job).Some?
    ensures ParseJobAndGuidBookmarkName(fsLen, RawName(prefix, guid, job), prefix) == Some(Parsed(guid, job)) <==> !EmbedsSep(job)
  {
    var s, n := RawName(prefix, guid, job), |prefix|;
    LastSepExact(prefix, guid, job);
    RawNameParts(prefix, guid, job);
    var p := LastSep(s, |s|);
    if p != n {
      assert |s[..p]| == p;
    } else {
      assert Pow16(16) == MAX_UINT64 + 1 by { Pow16Of16(); }
      ParseHexOfHex(guid, 16);
    }
  }

  /** Within one prefix, a name determines guid and job id. */
  lemma RawNameInjective(prefix: string, g: nat, j: string, g': nat, j': string)
    requires g <= MAX_UINT64 && g' <= MAX_UINT64 && RawName(prefix, g, j) == RawName(prefix, g', j')
    ensures g == g' && j == j'
  {
    RawNameParts(prefix, g, j);
    RawNameParts(prefix, g', j');
    Pow16Of16();
    ParseHexOfHex(g, 16);
    ParseHexOfHex(g', 16);
  }

  /** No tentative cursor is named like a cursor of any job, or like a v1 cursor. */
  lemma PrefixesDiffer(g: nat, j: string, g': nat, j': string)
    ensures RawName(TENTATIVE_PREFIX, g, j) != RawName(CURSOR_PREFIX, g', j')
    ensures RawName(TENTATIVE_PREFIX, g, j) != V1_CURSOR_NAME && RawName(CURSOR_PREFIX, g, j) != V1_CURSOR_NAME
  {
    assert RawName(TENTATIVE_PREFIX, g, j)[12] == 'T';
    assert RawName(CURSOR_PREFIX, g', j')[12] == '_';
    RawNameParts(TENTATIVE_PREFIX, g, j);
    RawNameParts(CURSOR_PREFIX, g, j);
    assert |V1_CURSOR_NAME| == 24;
  }

  lemma Pow16Of16()
    ensures Pow16(16) == MAX_UINT64 + 1
  {
    assert Pow16(2) == 0x100;
    assert Pow16(4) == 0x1_0000;
    assert Pow16(8) == 0x1_0000_0000;
    assert Pow16(12) == 0x1_0000_0000_0000;
  }

  const SOME_HEX := "0123456789abcdef"

  const STRADDLING := "G_" + SOME_HEX + "_J_x"

  lemma RawNameChars(prefix: string, guid: nat, job: string)
    requires (forall c :: c in prefix ==> ValidChar(c)) && (forall c :: c in job ==> ValidChar(c))
    ensures forall c :: c in RawName(prefix, guid, job) ==> ValidChar(c)
  {
    forall c | c in RawName(prefix, guid, job) ensures ValidChar(c) {
      assert c in prefix || c in "_G_" || c in Hex(guid, 16) || c in "_J_" || c in job;
    }
  }

  /** The limit on the length of a job id comes from the tentative cursor name. */
  lemma JobIdOkExact(job: string)
    ensures JobIdOk(job) <==> ComponentNamecheck(job) && |job| <= 203
  {
    RawNameParts(TENTATIVE_PREFIX, 0xface601d, job);
    assert |TENTATIVE_PREFIX| == 22 && |"pool/ds"| == 7;
    if ComponentNamecheck(job) && |job| <= 203 {
      RawNameChars(TENTATIVE_PREFIX, 0xface601d, job);
    }
  }

  lemma StraddlingIsJobId()
    ensures JobIdOk(STRADDLING)
  {
    assert |STRADDLING| == 22;
    JobIdOkExact(STRADDLING);
  }

  lemma StraddlingEmbeds()
    ensures EmbedsSep(STRADDLING)
    ensures forall q: nat :: !SepAt(STRADDLING, q)
  {
    var s := "_" + STRADDLING;
    assert |SOME_HEX| == 16;
    assert s == "_G_" + SOME_HEX + "_J_" + "x";
    assert s[0..3] == "_G_";
    assert s[3..19] == SOME_HEX;
    assert s[19..22] == "_J_";
    assert SepAt(s, 0);
  }

  /** The straddling case: this job id is accepted, contains no full separator itself and still breaks the round trip. */
  lemma StraddlingJobIdBreaksRoundTrip(prefix: string, fsLen: nat, guid: nat)
    requires prefix != "" && guid <= MAX_UINT64 && MakeJobAndGuidBookmarkName(prefix, fsLen, guid, STRADDLING).Some?
    ensures JobIdOk(STRADDLING) && EmbedsSep(STRADDLING) && forall q: nat :: !SepAt(STRADDLING, q)
    ensures ParseJobAndGuidBookmarkName(fsLen, RawName(prefix, guid, STRADDLING), prefix) != Some(Parsed(guid, STRADDLING))
  {
    StraddlingIsJobId();
    StraddlingEmbeds();
    NameRoundTripExact(prefix, fsLen, guid, STRADDLING);
  }

  // ----- Extractors -----

  /** A v2 replication cursor bookmark, with the job it belongs to. */
  function ExtractCursorV2(fsLen: nat, v: Version): (job: Option<string>) {
    if !BookmarkNamecheck(fsLen, v.name) || v.name == V1_CURSOR_NAME then None
    else
      match ParseJobAndGuidBookmarkName(fsLen, v.name, CURSOR_PREFIX)
      case Some(p) => if p.guid != v.guid then None else Some(p.job)
      case None => None
  }

  predicate ExtractCursorV1(fsLen: nat, v: Version) {
    BookmarkNamecheck(fsLen, v.name) && v.name == V1_CURSOR_NAME
  }

  function ExtractTentative(fsLen: nat, v: Version): (job: Option<string>) {
    match ParseJobAndGuidBookmarkName(fsLen, v.name, TENTATIVE_PREFIX)
    case Some(p) => if p.guid != v.guid then None else Some(p.job)
    case None => None
  }

  /** No bookmark is recognised by two extractors. */
  lemma ExtractorsDisjoint(fsLen: nat, v: Version)
    ensures !(ExtractCursorV2(fsLen, v).Some? && ExtractTentative(fsLen, v).Some?)
    ensures !(ExtractCursorV2(fsLen, v).Some? && ExtractCursorV1(fsLen, v))
    ensures !(ExtractCursorV1(fsLen, v) && ExtractTentative(fsLen, v).Some?)
  {
    assert |CURSOR_PREFIX| != |TENTATIVE_PREFIX|;
    assert V1_CURSOR_NAME[6] != TENTATIVE_PREFIX[6];
  }

  lemma {:induction false} HexOfParseHex(s: string)
    requires AllHex(s)
    ensures Hex(ParseHex(s), |s|) == s
  {
    if s != "" {
      var front, d := s[..|s| - 1], HexValue(s[|s| - 1]);
      HexOfParseHex(front);
      assert ParseHex(s) / 16 == ParseHex(front) && ParseHex(s) % 16 == d;
      assert HexDigit(d) == s[|s| - 1];
    }
  }

  /** What parsing yields is what the name was made from. */
  lemma ParsedIsRaw(fsLen: nat, name: string, prefix: string)
    ensures var r := ParseJobAndGuidBookmarkName(fsLen, name, prefix);
            r.Some? ==> name == RawName(prefix, r.value.guid, r.value.job) && BookmarkNamecheck(fsLen, name) && JobIdOk(r.value.job)
  {
    var p := LastSep(name, |name|);
    if ParseJobAndGuidBookmarkName(fsLen, name, prefix).Some? {
      SplitAtSep(name, p);
    }
  }

  lemma SplitAtSep(name: string, p: nat)
    requires SepAt(name, p)
    ensures name == RawName(name[..p], ParseHex(name[p + 3..p + 19]), name[p + 22..])
  {
    var a, b := name[..p], name[p..];
    HexOfParseHex(name[p + 3..p + 19]);
    assert name == a + b;
    Pieces(b);
    assert b[0..3] == name[p..p + 3] && b[3..19] == name[p + 3..p + 19] && b[19..22] == name[p + 19..p + 22];
    assert b[22..] == name[p + 22..];
    Regroup(a, "_G_", name[p + 3..p + 19], "_J_", name[p + 22..]);
  }

  lemma Pieces(b: string)
    requires |b| >= 22
    ensures b == b[0..3] + (b[3..19] + (b[19..22] + b[22..]))
  {
  }

  lemma Regroup(a: string, b: string, c: string, d: string, e: string)
    ensures a + (b + (c + (d + e))) == a + b + c + d + e
  {
  }

  lemma ParseExact(fsLen: nat, name: string, prefix: string, guid: nat, job: string)
    requires prefix != "" && guid <= MAX_UINT64
    ensures ParseJobAndGuidBookmarkName(fsLen, name, prefix) == Some(Parsed(guid, job)) <==>
            name == RawName(prefix, guid, job) && BookmarkNamecheck(fsLen, name) && JobIdOk(job) && !EmbedsSep(job)
  {
    ParsedIsRaw(fsLen, name, prefix);
    if name == RawName(prefix, guid, job) && BookmarkNamecheck(fsLen, name) && JobIdOk(job) {
      NameRoundTripExact(prefix, fsLen, guid, job);
    }
  }

  /** A bookmark is taken for a cursor of a job exactly if it has the name that the job gives to a cursor of its guid, the
      name is not too long, and the job id embeds no separator. */
  lemma ExtractExact(fsLen: nat, v: Version, job: string)
    requires v.guid <= MAX_UINT64
    ensures ExtractTentative(fsLen, v) == Some(job) <==>
            v.name == RawName(TENTATIVE_PREFIX, v.guid, job) && BookmarkNamecheck(fsLen, v.name) && JobIdOk(job) && !EmbedsSep(job)
    ensures ExtractCursorV2(fsLen, v) == Some(job) <==>
            v.name == RawName(CURSOR_PREFIX, v.guid, job) && BookmarkNamecheck(fsLen, v.name) && JobIdOk(job) && !EmbedsSep(job)
    ensures ExtractCursorV1(fsLen, v) <==> v.name == "zrepl_replication_cursor" && fsLen <= 230
  {
    ParseExact(fsLen, v.name, TENTATIVE_PREFIX, v.guid, job);
    ParseExact(fsLen, v.name, CURSOR_PREFIX, v.guid, job);
    PrefixesDiffer(v.guid, job, v.guid, job);
    V1NameOk();
  }

  lemma V1NameOk()
    ensures |V1_CURSOR_NAME| == 24 && ComponentNamecheck(V1_CURSOR_NAME)
  {
  }
}
