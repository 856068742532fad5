/** `strtok_r` with the delimiter ":" on a char buffer, in place. */
module Strtok {
  import opened CText

  /** `buf` holds a NUL-terminated string whose terminator is at `end`; `at` is a place in it. */
  ghost predicate Terminated(buf: array<char>, at: nat, end: nat)
    reads buf
  {
    at <= end < buf.Length && buf[end] == '\0' && forall i | at <= i < end :: buf[i] != '\0'
  }

  lemma {:induction false} TokensSkip(s: string, k: nat)
    requires k <= |s| && forall i | 0 <= i < k :: s[i] == ':'
    ensures Tokens(s) == Tokens(s[k..])
  {
    if k == 0 {
      assert s[k..] == s;
    } else {
      TokensSkip(s[1..], k - 1);
      assert s[1..][k - 1..] == s[k..];
    }
  }

  /** What is left of a text after the token ending at `k` and the delimiter behind it. */
  lemma TokensTake(s: string, k: nat)
    requires 0 < k <= |s| && (forall i | 0 <= i < k :: s[i] != ':') && (k < |s| ==> s[k] == ':')
    ensures Tokens(s) == [s[..k]] + (if k == |s| then [] else Tokens(s[k + 1..]))
  {
    if k < |s| {
      SpanIs(s, k);
      assert s[k..][1..] == s[k + 1..];
    } else {
      SpanAll(s);
      assert s[k..] == [];
    }
  }

  lemma {:induction false} SpanAll(s: string)
    requires forall i | 0 <= i < |s| :: s[i] != ':'
    ensures Span(s) == |s|
  {
    if s != [] {
      SpanAll(s[1..]);
    }
  }

  /** `at + strspn(at, ":")` */
  method SkipDelimiters(buf: array<char>, at: nat, ghost end: nat) returns (s: nat)
    requires Terminated(buf, at, end)
    ensures at <= s <= end && buf[s] != ':'
    ensures forall i | at <= i < s :: buf[i] == ':'
  {
    s := at;
    while buf[s] == ':'
      invariant at <= s <= end
      invariant forall i | at <= i < s :: buf[i] == ':'
      decreases end - s
    {
      s := s + 1;
    }
  }

  /** `at + strcspn(at, ":")` */
  method SkipToken(buf: array<char>, at: nat, ghost end: nat) returns (s: nat)
    requires Terminated(buf, at, end)
    ensures at <= s <= end && (s < end ==> buf[s] == ':')
    ensures forall i | at <= i < s :: buf[i] != ':'
  {
    s := at;
    while buf[s] != ':' && buf[s] != '\0'
      invariant at <= s <= end
      invariant forall i | at <= i < s :: buf[i] != ':'
      decreases end - s
    {
      s := s + 1;
    }
  }

  /** What the two scans mean for the tokens still to come. */
  lemma ScansFindToken(text: string, k: nat, m: nat)
    requires k < m <= |text| && (forall i | 0 <= i < k :: text[i] == ':')
    requires (forall i | k <= i < m :: text[i] != ':') && (m < |text| ==> text[m] == ':')
    ensures Tokens(text) == [text[k..m]] + (if m == |text| then [] else Tokens(text[m + 1..]))
  {
    TokensSkip(text, k);
    var rest := text[k..];
    TokensTake(rest, m - k);
    assert rest[..m - k] == text[k..m];
    if m < |text| {
      assert rest[m - k + 1..] == text[m + 1..];
    }
  }

  /** The token itself once the delimiter behind it has become a NUL. */
  lemma CutReads(before: string, after: string, k: nat, m: nat)
    requires k < m < |before| && after == before[m := '\0']
    requires forall i | k <= i < m :: before[i] != '\0'
    ensures CString(after[k..]) == before[k..m]
  {
    assert after[k..][..m - k] == before[k..m];
    CStringEndsAtNul(after[k..], m - k);
  }

  lemma SlicesOfSlice(s: string, at: nat, k: nat, m: nat, end: nat)
    requires at <= k <= m <= end <= |s|
    ensures s[at..end][k - at..m - at] == s[k..m]
    ensures s[at..end][m - at..] == s[m..end]
  {
    var t := s[at..end];
    assert forall i | 0 <= i < |t| :: t[i] == s[at + i];
    assert t[k - at..m - at] == s[k..m];
    assert t[m - at..] == s[m..end];
  }

  /** The two scans on the part of a buffer from `at` to `end`. */
  lemma ScansInBuffer(s: string, at: nat, k: nat, m: nat, end: nat)
    requires at <= k < m <= end <= |s| && (forall i | at <= i < k :: s[i] == ':')
    requires (forall i | k <= i < m :: s[i] != ':') && (m < end ==> s[m] == ':')
    ensures Tokens(s[at..end]) == [s[k..m]] + (if m == end then [] else Tokens(s[m + 1..end]))
  {
    hide Tokens;
    var t := s[at..end];
    assert forall i | 0 <= i < |t| :: t[i] == s[at + i];
    ScansFindToken(t, k - at, m - at);
    SlicesOfSlice(s, at, k, m, end);
    if m < end {
      SlicesOfSlice(s, at, m + 1, m + 1, end);
    }
  }

  /** Both scans together, once the delimiter behind the token has become a NUL. */
  lemma CutFindsToken(before: string, after: string, at: nat, k: nat, m: nat, end: nat)
    requires at <= k < m <= end < |before| && before[end] == '\0' && after == before[m := '\0']
    requires forall i | at <= i < end :: before[i] != '\0'
    requires forall i | at <= i < k :: before[i] == ':'
    requires (forall i | k <= i < m :: before[i] != ':') && (m < end ==> before[m] == ':')
    ensures Tokens(before[at..end]) == [CString(after[k..])] + Tokens(after[if m == end then end else m + 1..end])
  {
    NoTokens();
    hide Tokens;
    hide CString;
    ScansInBuffer(before, at, k, m, end);
    CutReads(before, after, k, m);
    if m < end {
      assert before[m + 1..end] == after[m + 1..end];
    } else {
      assert after[end..end] == [];
    }
  }

  lemma NoTokens()
    ensures Tokens([]) == []
  {
  }

  /**
   `strtok_r(..., ":", &save)`: skip delimiters from `at`, take the longest run of other characters,
   overwrite the delimiter behind it with NUL and continue after it. `tok` is the position of the
   token, or -1 for NULL. Nothing before `at` or from `save` on is written, so tokens returned
   earlier stay readable.
   */
  method StrtokR(buf: array<char>, at: nat, ghost end: nat) returns (tok: int, save: nat)
    requires Terminated(buf, at, end)
    modifies buf
    ensures at <= save <= end && Terminated(buf, save, end)
    ensures buf[..at] == old(buf[..at]) && buf[save..] == old(buf[save..])
    ensures tok == -1 ==> Tokens(old(buf[at..end])) == [] && save == end
    ensures tok != -1 ==>
        at <= tok < end
        && Tokens(old(buf[at..end])) == [CString(buf[tok..])] + Tokens(buf[save..end])
  {
    ghost var before := buf[..];
    var k := SkipDelimiters(buf, at, end);
    if buf[k] == '\0' {
      TokensSkip(buf[at..end], k - at);
      return -1, k;
    }
    var m := SkipToken(buf, k, end);
    tok := k;
    if buf[m] == '\0' {
      save := m;
      assert before[m := '\0'] == before;
    } else {
      buf[m] := '\0';
      save := m + 1;
    }
    CutFindsToken(before, buf[..], at, k, m, end);
    assert buf[..][k..] == buf[k..] && buf[..][save..end] == buf[save..end] && before[at..end] == old(buf[at..end]);
  }
}
