/** Python's whitespace splitting `str.split()` and space joining `" ".join(...)`. */
module Words {
  import opened Slicing

  /** The characters `str.split()` with no argument treats as separators. */
  predicate IsSpace(c: char)
  {
    || c == ' ' || c == '\t' || c == '\n' || c == '\r'
    || c == '\U{000B}' || c == '\U{000C}'
    || ('\U{001C}' <= c <= '\U{001F}')
    || c == '\U{0085}' || c == '\U{00A0}' || c == '\U{1680}'
    || ('\U{2000}' <= c <= '\U{200A}')
    || c == '\U{2028}' || c == '\U{2029}' || c == '\U{202F}' || c == '\U{205F}' || c == '\U{3000}'
  }

  /** A word as `split()` yields it: non-empty, without whitespace. */
  predicate IsWord(w: string)
  {
    |w| > 0 && forall i :: 0 <= i < |w| ==> !IsSpace(w[i])
  }

  /** The length of the run of non-whitespace characters that starts s. */
  function WordLength(s: string): (n: nat)
    ensures n <= |s|
    ensures forall i :: 0 <= i < n ==> !IsSpace(s[i])
    ensures n < |s| ==> IsSpace(s[n])
  {
    if s == [] || IsSpace(s[0]) then 0 else 1 + WordLength(s[1..])
  }

  /** `s.split()`: the maximal runs of non-whitespace characters, in order. */
  function Split(s: string): (ws: seq<string>)
    ensures forall i :: 0 <= i < |ws| ==> IsWord(ws[i])
    decreases |s|
  {
    if s == [] then []
    else if IsSpace(s[0]) then Split(s[1..])
    else
      var n := WordLength(s);
      [s[..n]] + Split(s[n..])
  }

  /** `" ".join(ws)`. */
  function Join(ws: seq<string>): string
  {
    if ws == [] then ""
    else if |ws| == 1 then ws[0]
    else ws[0] + " " + Join(ws[1..])
  }

  lemma {:induction false} WordLengthOfWord(w: string, rest: string)
    requires forall i :: 0 <= i < |w| ==> !IsSpace(w[i])
    requires rest == [] || IsSpace(rest[0])
    ensures WordLength(w + rest) == |w|
  {
    if w != [] {
      assert (w + rest)[1..] == w[1..] + rest;
      WordLengthOfWord(w[1..], rest);
    } else {
      assert w + rest == rest;
    }
  }

  /** A word followed by nothing or by whitespace is split off as one piece. */
  lemma SplitWord(w: string, rest: string)
    requires IsWord(w)
    requires rest == [] || IsSpace(rest[0])
    ensures Split(w + rest) == [w] + Split(rest)
  {
    WordLengthOfWord(w, rest);
    assert (w + rest)[..|w|] == w;
    assert (w + rest)[|w|..] == rest;
  }

  /** Splitting the space-join of words gives back exactly those words. */
  lemma {:induction false} SplitJoin(ws: seq<string>)
    requires forall i :: 0 <= i < |ws| ==> IsWord(ws[i])
    ensures Split(Join(ws)) == ws
  {
    if |ws| == 1 {
      SplitWord(ws[0], "");
      assert ws[0] + "" == ws[0];
    } else if |ws| > 1 {
      var tail := " " + Join(ws[1..]);
      assert Join(ws) == ws[0] + tail;
      SplitWord(ws[0], tail);
      assert tail[1..] == Join(ws[1..]);
      SplitJoin(ws[1..]);
    }
  }

  /** The non-whitespace characters of s, in order. */
  function NonSpace(s: string): string
  {
    if s == [] then []
    else if IsSpace(s[0]) then NonSpace(s[1..])
    else [s[0]] + NonSpace(s[1..])
  }

  lemma {:induction false} NonSpaceOfRun(s: string, n: nat)
    requires n <= |s|
    requires forall i :: 0 <= i < n ==> !IsSpace(s[i])
    ensures NonSpace(s) == s[..n] + NonSpace(s[n..])
  {
    if n > 0 {
      NonSpaceOfRun(s[1..], n - 1);
      assert s[1..][n - 1..] == s[n..];
      assert s[..n] == [s[0]] + s[1..][..n - 1];
    }
  }

  /**
   * `split()` loses no character but whitespace: its words, concatenated, are the
   * text's non-whitespace characters in order, and it yields no word exactly when
   * the text is all whitespace.
   */
  lemma {:induction false} SplitKeepsCharacters(s: string)
    ensures Flatten(Split(s)) == NonSpace(s)
    ensures Split(s) == [] <==> forall i :: 0 <= i < |s| ==> IsSpace(s[i])
    decreases |s|
  {
    if s != [] {
      if IsSpace(s[0]) {
        SplitKeepsCharacters(s[1..]);
        assert forall i :: 1 <= i < |s| ==> s[i] == s[1..][i - 1];
      } else {
        var n := WordLength(s);
        SplitKeepsCharacters(s[n..]);
        NonSpaceOfRun(s, n);
        var ws := Split(s);
        assert ws == [s[..n]] + Split(s[n..]);
        assert ws[0] == s[..n] && ws[1..] == Split(s[n..]);
      }
    }
  }

  /** Position i of s starts a word: a non-whitespace character at the start or after whitespace. */
  predicate IsWordStart(s: string, i: int)
  {
    0 <= i < |s| && !IsSpace(s[i]) && (i == 0 || IsSpace(s[i - 1]))
  }

  /** The positions at or after `from` where a word of s starts, from left to right. */
  function WordStarts(s: string, from: nat): seq<nat>
    decreases |s| - from
  {
    if from >= |s| then []
    else if IsWordStart(s, from) then [from] + WordStarts(s, from + 1)
    else WordStarts(s, from + 1)
  }

  /** WordStarts lists every word start at or after `from`, and nothing else, in increasing order. */
  lemma {:induction false} WordStartsExactly(s: string, from: nat)
    ensures forall j :: j in WordStarts(s, from) <==> from <= j < |s| && IsWordStart(s, j)
    ensures forall k :: 0 <= k < |WordStarts(s, from)| ==> from <= WordStarts(s, from)[k]
    ensures forall a, b :: 0 <= a < b < |WordStarts(s, from)| ==> WordStarts(s, from)[a] < WordStarts(s, from)[b]
    decreases |s| - from
  {
    if from < |s| {
      WordStartsExactly(s, from + 1);
    }
  }

  /** A stretch without word starts adds none to the list. */
  lemma {:induction false} NoStartsInRun(s: string, a: nat, b: nat)
    requires a <= b <= |s|
    requires forall j :: a <= j < b ==> !IsWordStart(s, j)
    ensures WordStarts(s, a) == WordStarts(s, b)
    decreases b - a
  {
    if a < b {
      NoStartsInRun(s, a + 1, b);
    }
  }

  /** Position i of s is not inside a word: a word may start there, or none continues there. */
  predicate AtBoundary(s: string, i: nat)
  {
    i <= |s| && (i == 0 || i == |s| || IsSpace(s[i - 1]) || IsSpace(s[i]))
  }

  /** w is the whole word of s that starts at position p: it runs up to whitespace or the end. */
  predicate WordAt(s: string, p: nat, w: string)
  {
    p + |w| <= |s| && s[p..p + |w|] == w && (p + |w| == |s| || IsSpace(s[p + |w|]))
  }

  /** Each word of ws is the whole word of s starting at the matching position of ps. */
  predicate Placed(s: string, ws: seq<string>, ps: seq<nat>)
  {
    |ws| == |ps| && (ws == [] || (WordAt(s, ps[0], ws[0]) && Placed(s, ws[1..], ps[1..])))
  }

  /** Placed, read position by position. */
  lemma {:induction false} PlacedAt(s: string, ws: seq<string>, ps: seq<nat>)
    requires Placed(s, ws, ps)
    ensures |ws| == |ps|
    ensures forall k :: 0 <= k < |ws| ==> WordAt(s, ps[k], ws[k])
  {
    if ws != [] {
      PlacedAt(s, ws[1..], ps[1..]);
      forall k | 1 <= k < |ws| ensures WordAt(s, ps[k], ws[k]) {
        assert ws[k] == ws[1..][k - 1] && ps[k] == ps[1..][k - 1];
      }
    }
  }

  /** split() of a suffix starting with a non-whitespace character takes its leading run as one word. */
  lemma SplitStep(s: string, i: nat) returns (n: nat)
    requires i < |s| && !IsSpace(s[i])
    ensures 0 < n && i + n <= |s|
    ensures forall j :: i <= j < i + n ==> !IsSpace(s[j])
    ensures AtBoundary(s, i + n) && WordAt(s, i, s[i..i + n])
    ensures Split(s[i..]) == [s[i..i + n]] + Split(s[i + n..])
  {
    var t := s[i..];
    assert t[0] == s[i];
    n := WordLength(t);
    assert t[..n] == s[i..i + n];
    assert t[n..] == s[i + n..];
    forall j | i <= j < i + n ensures !IsSpace(s[j]) {
      assert s[j] == t[j - i];
    }
    if i + n < |s| {
      assert s[i + n] == t[n];
    }
  }

  /** A word start followed by a run of non-whitespace holds the only word start of that run. */
  lemma StartsStep(s: string, i: nat, n: nat)
    requires IsWordStart(s, i) && 0 < n && i + n <= |s|
    requires forall j :: i <= j < i + n ==> !IsSpace(s[j])
    ensures WordStarts(s, i) == [i] + WordStarts(s, i + n)
  {
    forall j | i + 1 <= j < i + n ensures !IsWordStart(s, j) {
      assert !IsSpace(s[j - 1]);
    }
    NoStartsInRun(s, i + 1, i + n);
  }

  /** At a boundary followed by a non-whitespace character, split() and the word starts both take one step. */
  lemma WordStep(s: string, i: nat) returns (w: string, n: nat)
    requires AtBoundary(s, i) && i < |s| && !IsSpace(s[i])
    ensures 0 < n && i + n <= |s| && AtBoundary(s, i + n)
    ensures Split(s[i..]) == [w] + Split(s[i + n..])
    ensures WordStarts(s, i) == [i] + WordStarts(s, i + n)
    ensures WordAt(s, i, w)
  {
    n := SplitStep(s, i);
    StartsStep(s, i, n);
    w := s[i..i + n];
  }

  /** At a boundary followed by whitespace, split() and the word starts both skip that character. */
  lemma SpaceStep(s: string, i: nat)
    requires i < |s| && IsSpace(s[i])
    requires Placed(s, Split(s[i + 1..]), WordStarts(s, i + 1))
    ensures Placed(s, Split(s[i..]), WordStarts(s, i))
  {
    assert s[i..][1..] == s[i + 1..];
    assert !IsWordStart(s, i);
    assert Split(s[i..]) == Split(s[i + 1..]);
  }

  /** At the end of s there is neither a word nor a word start. */
  lemma EndStep(s: string)
    ensures Placed(s, Split(s[|s|..]), WordStarts(s, |s|))
  {
    assert s[|s|..] == [];
  }

  /** Prefixing one word at its start keeps every word placed at its start. */
  lemma ConsPlaced(s: string, p: nat, w: string, ws: seq<string>, ps: seq<nat>, allWs: seq<string>, allPs: seq<nat>)
    requires WordAt(s, p, w) && Placed(s, ws, ps)
    requires allWs == [w] + ws && allPs == [p] + ps
    ensures Placed(s, allWs, allPs)
  {
    assert allWs[0] == w && allWs[1..] == ws;
    assert allPs[0] == p && allPs[1..] == ps;
  }

  /** After a word at a boundary, the next boundary is the end of that word. */
  lemma WordNext(s: string, i: nat) returns (j: nat)
    requires AtBoundary(s, i) && i < |s| && !IsSpace(s[i])
    ensures i < j <= |s| && AtBoundary(s, j)
    ensures Placed(s, Split(s[j..]), WordStarts(s, j)) ==> Placed(s, Split(s[i..]), WordStarts(s, i))
  {
    var w, n := WordStep(s, i);
    j := i + n;
    if Placed(s, Split(s[j..]), WordStarts(s, j)) {
      ConsPlaced(s, i, w, Split(s[j..]), WordStarts(s, j), Split(s[i..]), WordStarts(s, i));
    }
  }

  /** From a boundary, the next boundary: split() and the word starts agree from here if they agree from there. */
  lemma NextBoundary(s: string, i: nat) returns (j: nat)
    requires AtBoundary(s, i) && i < |s|
    ensures i < j <= |s| && AtBoundary(s, j)
    ensures Placed(s, Split(s[j..]), WordStarts(s, j)) ==> Placed(s, Split(s[i..]), WordStarts(s, i))
  {
    if IsSpace(s[i]) {
      j := i + 1;
      if Placed(s, Split(s[j..]), WordStarts(s, j)) {
        SpaceStep(s, i);
      }
    } else {
      j := WordNext(s, i);
    }
  }

  /** From any boundary of s onwards, split() yields one word per word start, each placed at its start. */
  lemma {:induction false} SplitFrom(s: string, i: nat)
    requires AtBoundary(s, i)
    ensures Placed(s, Split(s[i..]), WordStarts(s, i))
    decreases |s| - i
  {
    if i == |s| {
      EndStep(s);
    } else {
      var j := NextBoundary(s, i);
      SplitFrom(s, j);
    }
  }

  /**
   * `split()` yields exactly one word per word start of s, in order: word k is the
   * text from the k-th word start up to the next whitespace or the end of s.
   */
  lemma SplitAtWordStarts(s: string)
    ensures |Split(s)| == |WordStarts(s, 0)|
    ensures forall k :: 0 <= k < |Split(s)| ==> WordAt(s, WordStarts(s, 0)[k], Split(s)[k])
  {
    assert s[0..] == s;
    SplitFrom(s, 0);
    PlacedAt(s, Split(s), WordStarts(s, 0));
  }
}
