/**
 * Extraction of video identifiers from the markup of a channel page: the global
 * match of /watch\?v=([a-zA-Z0-9_-]{11})/, the removal of the `watch?v=` prefix,
 * the length filter, the first-seen-order deduplication of a `Set`, and the cap of 50.
 */
module WatchLinks {
  import opened Seqs

  const WatchPrefix: string := "watch?v="
  const PrefixLength: nat := 8  // |WatchPrefix|
  const IdLength: nat := 11
  /** Length of one whole match: the prefix followed by an identifier. */
  const MatchLength: nat := 19
  /** At most this many identifiers survive the extraction. */
  const MaxScrapedVideos: nat := 50

  /** A character of the class [a-zA-Z0-9_-]. */
  predicate IsIdChar(c: char) {
    ('a' <= c <= 'z') || ('A' <= c <= 'Z') || ('0' <= c <= '9') || c == '_' || c == '-'
  }

  predicate IsVideoId(s: string) {
    |s| == IdLength && forall k :: 0 <= k < |s| ==> IsIdChar(s[k])
  }

  /** The pattern matches at position `p` of `html`. */
  predicate MatchAt(html: string, p: nat) {
    && p + MatchLength <= |html|
    && html[p..p + PrefixLength] == WatchPrefix
    && IsVideoId(html[p + PrefixLength..p + MatchLength])
  }

  /** Position `q` lies inside one of the matches starting at `ps`. */
  predicate Covered(ps: seq<nat>, q: nat) {
    exists k :: 0 <= k < |ps| && ps[k] <= q < ps[k] + MatchLength
  }

  /**
   * Start positions of the matches a global regular-expression match finds when it
   * scans from position `i`: after a match the scan resumes at the end of it, otherwise
   * one character further on.
   */
  function MatchPositions(html: string, i: nat): (ps: seq<nat>)
    decreases |html| - i
  {
    if i + MatchLength > |html| then []
    else if MatchAt(html, i) then [i] + MatchPositions(html, i + MatchLength)
    else MatchPositions(html, i + 1)
  }

  /** Every position reported is a match at or after the start of the scan. */
  lemma {:induction false} MatchPositionsSound(html: string, i: nat)
    ensures forall k :: 0 <= k < |MatchPositions(html, i)| ==>
      i <= MatchPositions(html, i)[k] && MatchAt(html, MatchPositions(html, i)[k])
    decreases |html| - i
  {
    if i + MatchLength > |html| {
    } else if MatchAt(html, i) {
      var rest := MatchPositions(html, i + MatchLength);
      MatchPositionsSound(html, i + MatchLength);
      assert MatchPositions(html, i) == [i] + rest;
    } else {
      MatchPositionsSound(html, i + 1);
    }
  }

  /** Matches come left to right and never overlap. */
  lemma {:induction false} MatchPositionsDisjoint(html: string, i: nat)
    ensures forall k :: 0 < k < |MatchPositions(html, i)| ==>
      MatchPositions(html, i)[k - 1] + MatchLength <= MatchPositions(html, i)[k]
    decreases |html| - i
  {
    if i + MatchLength > |html| {
    } else if MatchAt(html, i) {
      var rest := MatchPositions(html, i + MatchLength);
      MatchPositionsDisjoint(html, i + MatchLength);
      MatchPositionsSound(html, i + MatchLength);
      assert MatchPositions(html, i) == [i] + rest;
    } else {
      MatchPositionsDisjoint(html, i + 1);
    }
  }

  /** Every match at or after `i` that is not reported lies inside one that is. */
  lemma {:induction false} MatchPositionsComplete(html: string, i: nat, q: nat)
    requires i <= q && MatchAt(html, q)
    ensures Covered(MatchPositions(html, i), q)
    decreases |html| - i
  {
    var ps := MatchPositions(html, i);
    if i + MatchLength > |html| {
      assert false;
    } else if MatchAt(html, i) {
      var rest := MatchPositions(html, i + MatchLength);
      assert ps == [i] + rest;
      if q < i + MatchLength {
        assert ps[0] == i;
      } else {
        MatchPositionsComplete(html, i + MatchLength, q);
        var k :| 0 <= k < |rest| && rest[k] <= q < rest[k] + MatchLength;
        assert ps[k + 1] == rest[k];
      }
    } else if q == i {
      assert false;
    } else {
      MatchPositionsComplete(html, i + 1, q);
    }
  }

  /** The matched texts, as `html.match(...)` returns them with the global flag. */
  function MatchedTexts(html: string): (ms: seq<string>)
    ensures |ms| == |MatchPositions(html, 0)|
  {
    var ps := MatchPositions(html, 0);
    MatchPositionsSound(html, 0);
    seq(|ps|, k requires 0 <= k < |ps| => html[ps[k]..ps[k] + MatchLength])
  }

  /** `m.replace('watch?v=', '')`: removes the first occurrence of the prefix. */
  function StripWatchPrefix(m: string): string {
    if PrefixLength <= |m| && m[..PrefixLength] == WatchPrefix then m[PrefixLength..]
    else if m == [] then m
    else [m[0]] + StripWatchPrefix(m[1..])
  }

  /** `.filter(id => id.length === 11)`. */
  function KeepIdLength(ids: seq<string>): (r: seq<string>)
    ensures forall k :: 0 <= k < |r| ==> |r[k]| == IdLength && r[k] in ids
  {
    if ids == [] then []
    else if |ids[0]| == IdLength then [ids[0]] + KeepIdLength(ids[1..])
    else KeepIdLength(ids[1..])
  }

  /** The identifiers of all matches, in order, duplicates included. */
  function RawIds(html: string): seq<string> {
    var ms := MatchedTexts(html);
    KeepIdLength(seq(|ms|, k requires 0 <= k < |ms| => StripWatchPrefix(ms[k])))
  }

  /**
   * Deduplication as `[...new Set(s)]`: keeps the first occurrence of every element
   * not in `seen`, in the order of `s`.
   */
  function DedupFrom(s: seq<string>, seen: set<string>): (r: seq<string>)
    ensures NoDuplicates(r)
    ensures forall x :: x in r <==> x in s && x !in seen
    ensures |r| <= |s|
  {
    if s == [] then []
    else if s[0] in seen then DedupFrom(s[1..], seen)
    else
      var rest := DedupFrom(s[1..], seen + {s[0]});
      assert forall k :: 0 <= k < |rest| ==> rest[k] != s[0];
      [s[0]] + rest
  }

  function Dedup(s: seq<string>): seq<string> {
    DedupFrom(s, {})
  }

  /** The identifiers the scrape fallback hydrates (api/youtube.ts, lines 123-128). */
  function ExtractVideoIds(html: string): seq<string> {
    Take(Dedup(RawIds(html)), MaxScrapedVideos)
  }

  // ----- properties -----------------------------------------------------------

  lemma StripMatchedText(html: string, p: nat)
    requires MatchAt(html, p)
    ensures StripWatchPrefix(html[p..p + MatchLength]) == html[p + PrefixLength..p + MatchLength]
  {
  }

  lemma {:induction false} KeepIdLengthKeepsAll(ids: seq<string>)
    requires forall k :: 0 <= k < |ids| ==> |ids[k]| == IdLength
    ensures KeepIdLength(ids) == ids
  {
    if ids != [] {
      KeepIdLengthKeepsAll(ids[1..]);
    }
  }

  /**
   * The raw identifier list is exactly the eleven characters after the prefix of every
   * match, left to right: the prefix removal yields the identifier and the length
   * filter drops nothing.
   */
  lemma RawIdsAreMatchedIds(html: string)
    ensures |RawIds(html)| == |MatchPositions(html, 0)|
    ensures forall k :: 0 <= k < |MatchPositions(html, 0)| ==>
      MatchAt(html, MatchPositions(html, 0)[k]) &&
      RawIds(html)[k] == html[MatchPositions(html, 0)[k] + PrefixLength..MatchPositions(html, 0)[k] + MatchLength]
  {
    var ps := MatchPositions(html, 0);
    MatchPositionsSound(html, 0);
    var ms := MatchedTexts(html);
    var stripped := seq(|ms|, k requires 0 <= k < |ms| => StripWatchPrefix(ms[k]));
    forall k | 0 <= k < |ps|
      ensures stripped[k] == html[ps[k] + PrefixLength..ps[k] + MatchLength]
    {
      StripMatchedText(html, ps[k]);
    }
    KeepIdLengthKeepsAll(stripped);
  }

  /** Every raw identifier is a well-formed identifier that follows `watch?v=` in the markup. */
  lemma RawIdsWellFormed(html: string)
    ensures forall id :: id in RawIds(html) ==>
      IsVideoId(id) && exists p: nat :: MatchAt(html, p) && html[p + PrefixLength..p + MatchLength] == id
  {
    RawIdsAreMatchedIds(html);
    var ps := MatchPositions(html, 0);
    MatchPositionsSound(html, 0);
    forall id | id in RawIds(html)
      ensures IsVideoId(id) && exists p: nat :: MatchAt(html, p) && html[p + PrefixLength..p + MatchLength] == id
    {
      var k :| 0 <= k < |RawIds(html)| && RawIds(html)[k] == id;
      assert MatchAt(html, ps[k]);
    }
  }

  /** The deduplication keeps elements in the order of their first occurrence. */
  lemma {:induction false} DedupFromOrder(s: seq<string>, seen: set<string>)
    ensures forall i, j :: 0 <= i < j < |DedupFrom(s, seen)| ==>
      FirstIndex(s, DedupFrom(s, seen)[i]) < FirstIndex(s, DedupFrom(s, seen)[j])
  {
    if s != [] {
      var r := DedupFrom(s, seen);
      if s[0] in seen {
        assert r == DedupFrom(s[1..], seen);
        DedupFromOrder(s[1..], seen);
        forall k | 0 <= k < |r| ensures FirstIndex(s, r[k]) == 1 + FirstIndex(s[1..], r[k]) {
          assert r[k] in s[1..] && r[k] != s[0];
        }
        forall i, j | 0 <= i < j < |r| ensures FirstIndex(s, r[i]) < FirstIndex(s, r[j]) {
          assert FirstIndex(s[1..], r[i]) < FirstIndex(s[1..], r[j]);
        }
      } else {
        var rest := DedupFrom(s[1..], seen + {s[0]});
        DedupFromOrder(s[1..], seen + {s[0]});
        assert r == [s[0]] + rest;
        forall k | 0 <= k < |rest| ensures FirstIndex(s, rest[k]) == 1 + FirstIndex(s[1..], rest[k]) {
          assert rest[k] in s[1..] && rest[k] != s[0];
        }
        forall i, j | 0 <= i < j < |r| ensures FirstIndex(s, r[i]) < FirstIndex(s, r[j]) {
          if i > 0 {
            assert r[i] == rest[i - 1] && r[j] == rest[j - 1];
            assert FirstIndex(s[1..], rest[i - 1]) < FirstIndex(s[1..], rest[j - 1]);
          } else {
            assert r[i] == s[0] && r[j] == rest[j - 1];
          }
        }
      }
    }
  }

  /**
   * The deduplicated list holds every element of `s` exactly once, in the order
   * of first occurrence.
   */
  lemma DedupCharacterised(s: seq<string>)
    ensures NoDuplicates(Dedup(s))
    ensures forall x :: x in Dedup(s) <==> x in s
    ensures forall i, j :: 0 <= i < j < |Dedup(s)| ==> FirstIndex(s, Dedup(s)[i]) < FirstIndex(s, Dedup(s)[j])
  {
    DedupFromOrder(s, {});
  }

  /**
   * The identifiers handed to hydration: at most 50, no two alike, each a well-formed
   * identifier that follows `watch?v=` in the markup, taken in first-seen order, and a
   * prefix of the deduplicated match list (so every distinct match is kept when there
   * are at most 50 of them).
   */
  lemma ExtractVideoIdsProperties(html: string)
    ensures |ExtractVideoIds(html)| <= MaxScrapedVideos
    ensures NoDuplicates(ExtractVideoIds(html))
    ensures ExtractVideoIds(html) == Dedup(RawIds(html))[..|ExtractVideoIds(html)|]
    ensures |Dedup(RawIds(html))| <= MaxScrapedVideos ==> ExtractVideoIds(html) == Dedup(RawIds(html))
    ensures forall id :: id in ExtractVideoIds(html) ==>
      IsVideoId(id) && exists p: nat :: MatchAt(html, p) && html[p + PrefixLength..p + MatchLength] == id
    ensures forall i, j :: 0 <= i < j < |ExtractVideoIds(html)| ==>
      FirstIndex(RawIds(html), ExtractVideoIds(html)[i]) < FirstIndex(RawIds(html), ExtractVideoIds(html)[j])
  {
    var ids := ExtractVideoIds(html);
    var d := Dedup(RawIds(html));
    DedupCharacterised(RawIds(html));
    RawIdsWellFormed(html);
    assert forall k :: 0 <= k < |ids| ==> ids[k] == d[k] && ids[k] in d;
  }
}
