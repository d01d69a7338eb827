/** The JavaScript string operations the components rely on, over `seq<char>`:
    `\s`, `toLowerCase`, `trim`, `replace` with a global literal pattern, `split`
    and `join`. */
module Text {

  // ---------------------------------------------------------------------------
  // Whitespace and case
  // ---------------------------------------------------------------------------

  /** A character matched by `\s` and removed by `String.prototype.trim`: the
      ECMAScript WhiteSpace and LineTerminator code points. */
  predicate IsSpace(c: char) {
    || c == ' ' || c == '\t' || c == '\n' || c == '\r'
    || c == '\U{000B}' || c == '\U{000C}' || c == '\U{00A0}' || c == '\U{1680}'
    || ('\U{2000}' <= c <= '\U{200A}')
    || c == '\U{2028}' || c == '\U{2029}' || c == '\U{202F}' || c == '\U{205F}'
    || c == '\U{3000}' || c == '\U{FEFF}'
  }

  predicate NoSpace(s: string) {
    forall i :: 0 <= i < |s| ==> !IsSpace(s[i])
  }

  predicate AllSpace(s: string) {
    forall i :: 0 <= i < |s| ==> IsSpace(s[i])
  }

  predicate IsUpper(c: char) {
    'A' <= c <= 'Z'
  }

  function ToLowerChar(c: char): (d: char)
    ensures !IsUpper(d)
    ensures IsUpper(c) ==> d as int == c as int + 32
    ensures !IsUpper(c) ==> d == c
  {
    if IsUpper(c) then (c as int + 32) as char else c
  }

  /** `String.prototype.toLowerCase`, restricted to the ASCII letters: each of
      `A`..`Z` becomes its lower-case letter, every other character is kept. */
  function ToLower(s: string): (r: string)
    ensures |r| == |s|
    ensures forall i :: 0 <= i < |r| ==> !IsUpper(r[i])
    ensures forall i :: 0 <= i < |r| && IsUpper(s[i]) ==> r[i] as int == s[i] as int + 32
    ensures forall i :: 0 <= i < |r| && !IsUpper(s[i]) ==> r[i] == s[i]
  {
    seq(|s|, i requires 0 <= i < |s| => ToLowerChar(s[i]))
  }

  lemma LowerIsFixed(s: string)
    requires forall i :: 0 <= i < |s| ==> !IsUpper(s[i])
    ensures ToLower(s) == s
  {
  }

  lemma ToLowerIdempotent(s: string)
    ensures ToLower(ToLower(s)) == ToLower(s)
  {
    LowerIsFixed(ToLower(s));
  }

  /** `s.replace(/\s+/g, '')`: every whitespace character is removed and the
      others are kept, in order. */
  function StripSpaces(s: string): (r: string)
    ensures NoSpace(r)
  {
    if s == [] then ""
    else if IsSpace(s[0]) then StripSpaces(s[1..])
    else [s[0]] + StripSpaces(s[1..])
  }

  /** Text without whitespace is left as it is. */
  lemma {:induction false} StripNoSpace(s: string)
    requires NoSpace(s)
    ensures StripSpaces(s) == s
  {
    if s != [] {
      StripNoSpace(s[1..]);
    }
  }

  /** Stripping whitespace works piece by piece. */
  lemma {:induction false} StripConcat(a: string, b: string)
    ensures StripSpaces(a + b) == StripSpaces(a) + StripSpaces(b)
  {
    if a == [] {
      assert a + b == b;
    } else {
      assert (a + b)[0] == a[0];
      assert (a + b)[1..] == a[1..] + b;
      StripConcat(a[1..], b);
    }
  }

  // ---------------------------------------------------------------------------
  // trim
  // ---------------------------------------------------------------------------

  function TrimStart(s: string): (r: string)
    ensures |r| <= |s|
  {
    if s != [] && IsSpace(s[0]) then TrimStart(s[1..]) else s
  }

  /** `TrimStart` removes a whitespace prefix and stops at the first other
      character. */
  lemma {:induction false} TrimStartRemovesSpace(s: string)
    ensures var r := TrimStart(s);
      r == s[|s| - |r|..] && AllSpace(s[..|s| - |r|]) && (r == [] || !IsSpace(r[0]))
  {
    if s != [] && IsSpace(s[0]) {
      TrimStartRemovesSpace(s[1..]);
      var r := TrimStart(s);
      assert s[1..][|s| - 1 - |r|..] == s[|s| - |r|..];
      forall i | 0 <= i < |s| - |r| ensures IsSpace(s[i]) {
        if i > 0 {
          assert s[i] == s[1..][..|s| - 1 - |r|][i - 1];
        }
      }
    }
  }

  function TrimEnd(s: string): (r: string)
    ensures |r| <= |s|
  {
    if s != [] && IsSpace(s[|s| - 1]) then TrimEnd(s[..|s| - 1]) else s
  }

  /** `TrimEnd` removes a whitespace suffix and stops at the last other
      character. */
  lemma {:induction false} TrimEndRemovesSpace(s: string)
    ensures var r := TrimEnd(s);
      r == s[..|r|] && AllSpace(s[|r|..]) && (r == [] || !IsSpace(r[|r| - 1]))
  {
    if s != [] && IsSpace(s[|s| - 1]) {
      var t := s[..|s| - 1];
      TrimEndRemovesSpace(t);
      var r := TrimEnd(s);
      assert t[..|r|] == s[..|r|];
      forall i | |r| <= i < |s| ensures IsSpace(s[i]) {
        if i < |s| - 1 {
          assert s[i] == t[|r|..][i - |r|];
        }
      }
    }
  }

  /** `String.prototype.trim`: leading and trailing whitespace removed. */
  function Trim(s: string): (r: string)
    ensures r == [] || (!IsSpace(r[0]) && !IsSpace(r[|r| - 1]))
  {
    TrimStartRemovesSpace(s);
    TrimEndRemovesSpace(TrimStart(s));
    TrimEnd(TrimStart(s))
  }

  /** `!s.trim()`: the string is empty once trimmed. */
  predicate IsBlank(s: string) {
    Trim(s) == ""
  }

  /** A string is blank exactly when every one of its characters is whitespace. */
  lemma BlankIffAllSpace(s: string)
    ensures IsBlank(s) <==> AllSpace(s)
  {
    var t := TrimStart(s);
    TrimStartRemovesSpace(s);
    TrimEndRemovesSpace(t);
    if IsBlank(s) {
      assert AllSpace(t);
      forall i | 0 <= i < |s| ensures IsSpace(s[i]) {
        assert s[i] == s[..|s| - |t|][i];
      }
    }
  }

  /** Trimming a word with non-whitespace ends that is preceded by whitespace
      gives the word back. */
  lemma TrimPadded(pad: string, w: string)
    requires AllSpace(pad)
    requires |w| > 0 && !IsSpace(w[0]) && !IsSpace(w[|w| - 1])
    ensures Trim(pad + w) == w
  {
    TrimStartPadded(pad, w);
  }

  lemma {:induction false} TrimStartPadded(pad: string, w: string)
    requires AllSpace(pad)
    requires |w| > 0 && !IsSpace(w[0])
    ensures TrimStart(pad + w) == w
  {
    if pad == [] {
      assert pad + w == w;
    } else {
      assert (pad + w)[0] == pad[0];
      assert (pad + w)[1..] == pad[1..] + w;
      TrimStartPadded(pad[1..], w);
    }
  }

  // ---------------------------------------------------------------------------
  // replace(/literal/g, replacement)
  // ---------------------------------------------------------------------------

  /** `p` occurs in `s` starting at index `k`. */
  predicate StartsAt(s: string, p: string, k: int) {
    0 <= k && k + |p| <= |s| && s[k..k + |p|] == p
  }

  predicate Occurs(s: string, p: string) {
    exists k :: 0 <= k <= |s| && StartsAt(s, p, k)
  }

  /** No character of `p` appears in `rep`. */
  predicate Disjoint(p: string, rep: string) {
    forall i :: 0 <= i < |p| ==> p[i] !in rep
  }

  /** `s.replace(/p/g, rep)` for a pattern `p` that matches itself literally and
      a replacement without `$` patterns: scanning from the left, each
      occurrence of `p` is replaced by `rep` and the scan resumes after it, so
      occurrences never overlap. */
  function ReplaceAll(s: string, p: string, rep: string): string
    requires |p| > 0
    decreases |s|
  {
    if |s| < |p| then s
    else if StartsAt(s, p, 0) then rep + ReplaceAll(s[|p|..], p, rep)
    else [s[0]] + ReplaceAll(s[1..], p, rep)
  }

  lemma OccursInSuffix(s: string, p: string, m: nat)
    requires m <= |s| && Occurs(s[m..], p)
    ensures Occurs(s, p)
  {
    var k :| 0 <= k <= |s[m..]| && StartsAt(s[m..], p, k);
    assert k + |p| <= |s| - m;
    assert s[m..][k..k + |p|] == s[m + k..m + k + |p|];
    assert StartsAt(s, p, m + k);
  }

  /** Text without an occurrence of the pattern is returned unchanged. */
  lemma {:induction false} ReplaceAbsent(s: string, p: string, rep: string)
    requires |p| > 0 && !Occurs(s, p)
    ensures ReplaceAll(s, p, rep) == s
  {
    if |s| >= |p| {
      assert !StartsAt(s, p, 0);
      if Occurs(s[1..], p) {
        OccursInSuffix(s, p, 1);
      }
      ReplaceAbsent(s[1..], p, rep);
      assert s == [s[0]] + s[1..];
    }
  }

  /** A scan that finds the pattern at the front emits the replacement first. */
  lemma ReplaceHead(s: string, q: string, rep: string)
    requires |q| > 0 && |rep| > 0 && StartsAt(s, q, 0)
    ensures ReplaceAll(s, q, rep)[0] in rep
  {
    assert ReplaceAll(s, q, rep) == rep + ReplaceAll(s[|q|..], q, rep);
  }

  /** While the output shows no character of a non-empty replacement, it is a
      verbatim copy of the input. */
  lemma {:induction false} ReplaceCopiesPrefix(s: string, q: string, rep: string, n: nat)
    requires |q| > 0 && |rep| > 0
    requires n <= |ReplaceAll(s, q, rep)|
    requires forall i :: 0 <= i < n ==> ReplaceAll(s, q, rep)[i] !in rep
    ensures n <= |s| && ReplaceAll(s, q, rep)[..n] == s[..n]
  {
    var r := ReplaceAll(s, q, rep);
    if n == 0 || |s| < |q| {
    } else if StartsAt(s, q, 0) {
      ReplaceHead(s, q, rep);
      assert false;
    } else {
      var r' := ReplaceAll(s[1..], q, rep);
      assert r == [s[0]] + r';
      forall i | 0 <= i < n - 1 ensures r'[i] !in rep {
        assert r'[i] == r[i + 1];
      }
      ReplaceCopiesPrefix(s[1..], q, rep, n - 1);
      assert r[..n] == [s[0]] + r'[..n - 1];
      assert s[..n] == [s[0]] + s[1..][..n - 1];
    }
  }

  /** A match of `p` cannot begin inside a prefix that shares no character
      with `p`, so it would lie wholly in the rest. */
  lemma NoMatchAfter(front: string, rest: string, p: string)
    requires |p| > 0 && Disjoint(p, front) && !Occurs(rest, p)
    ensures !Occurs(front + rest, p)
  {
    var r := front + rest;
    if Occurs(r, p) {
      var k :| 0 <= k <= |r| && StartsAt(r, p, k);
      assert r[k..k + |p|][0] == p[0];
      if k >= |front| {
        assert r[k..k + |p|] == rest[k - |front|..k - |front| + |p|];
        assert StartsAt(rest, p, k - |front|);
      }
    }
  }

  /** A match of `p` in `[c] + rest` that does not begin at index 0 is a match
      in `rest`. */
  lemma MatchPastHead(c: char, rest: string, p: string, k: int)
    requires 0 < k && StartsAt([c] + rest, p, k)
    ensures StartsAt(rest, p, k - 1)
  {
    assert ([c] + rest)[k..k + |p|] == rest[k - 1..k - 1 + |p|];
  }

  /** A match of `p` at the front of the output, when the scan copied the first
      character and `rep` shares no character with `p`, is a match at the
      front of the input. */
  lemma FrontMatchCopied(s: string, q: string, rep: string, p: string)
    requires |q| > 0 && |p| > 0 && |rep| > 0 && Disjoint(p, rep)
    requires |s| >= |q| && !StartsAt(s, q, 0)
    requires StartsAt(ReplaceAll(s, q, rep), p, 0)
    ensures StartsAt(s, p, 0)
  {
    var r := ReplaceAll(s, q, rep);
    var t := s[1..];
    var r' := ReplaceAll(t, q, rep);
    var n := |p| - 1;
    assert r == [s[0]] + r';
    assert r[..|p|] == p;
    assert r'[..n] == p[1..] by {
      assert r[..|p|] == [s[0]] + r'[..n];
    }
    forall i | 0 <= i < n ensures r'[i] !in rep {
      assert r'[i] == r'[..n][i] == p[1..][i];
    }
    ReplaceCopiesPrefix(t, q, rep, n);
    assert s[..|p|] == [s[0]] + t[..n];
  }

  /** Replacing `q` by a non-empty `rep` that shares no character with `p`
      leaves no occurrence of `p`, provided `p` is `q` itself or did not occur
      before: a match of `p` cannot use a character of `rep`, so it would be a
      match in the input, one the scan would have replaced (`p == q`) or that
      was not there. */
  lemma {:induction false} ReplaceLeavesNoMatch(s: string, q: string, rep: string, p: string)
    requires |q| > 0 && |p| > 0 && |rep| > 0
    requires Disjoint(p, rep)
    requires p == q || !Occurs(s, p)
    ensures !Occurs(ReplaceAll(s, q, rep), p)
    decreases |s|
  {
    var r := ReplaceAll(s, q, rep);
    if |s| < |q| {
      assert r == s;
    } else if StartsAt(s, q, 0) {
      var t := s[|q|..];
      if p != q && Occurs(t, p) {
        OccursInSuffix(s, p, |q|);
      }
      ReplaceLeavesNoMatch(t, q, rep, p);
      NoMatchAfter(rep, ReplaceAll(t, q, rep), p);
    } else {
      var t := s[1..];
      var r' := ReplaceAll(t, q, rep);
      assert r == [s[0]] + r';
      if p != q && Occurs(t, p) {
        OccursInSuffix(s, p, 1);
      }
      ReplaceLeavesNoMatch(t, q, rep, p);
      if Occurs(r, p) {
        var k :| 0 <= k <= |r| && StartsAt(r, p, k);
        if k > 0 {
          MatchPastHead(s[0], r', p, k);
        } else {
          FrontMatchCopied(s, q, rep, p);
        }
      }
    }
  }


  /** A pattern with a character the text lacks does not occur in it. */
  lemma CharAbsent(s: string, p: string, c: char)
    requires c in p && c !in s
    ensures !Occurs(s, p)
  {
  }

  /** A prefix without the first character of the pattern is copied unchanged. */
  lemma {:induction false} ReplaceSkip(a: string, t: string, p: string, rep: string)
    requires |p| > 0 && p[0] !in a
    ensures ReplaceAll(a + t, p, rep) == a + ReplaceAll(t, p, rep)
  {
    if a != [] {
      var s := a + t;
      assert s[0] == a[0];
      assert s[1..] == a[1..] + t;
      assert a == [a[0]] + a[1..];
      assert p[0] !in a[1..];
      ReplaceSkip(a[1..], t, p, rep);
      if |s| < |p| {
        assert ReplaceAll(t, p, rep) == t;
      } else {
        assert !StartsAt(s, p, 0) by {
          assert s[..|p|][0] == s[0];
        }
        assert ReplaceAll(s, p, rep) == [s[0]] + ReplaceAll(s[1..], p, rep);
        assert ReplaceAll(s, p, rep) == [a[0]] + a[1..] + ReplaceAll(t, p, rep);
      }
    } else {
      assert a + t == t;
    }
  }

  /** An occurrence at the front is replaced. */
  lemma ReplaceFront(p: string, t: string, rep: string)
    requires |p| > 0
    ensures ReplaceAll(p + t, p, rep) == rep + ReplaceAll(t, p, rep)
  {
    var s := p + t;
    assert s[..|p|] == p && s[|p|..] == t;
  }

  /** Every character of `s`, with each `c` expanded to `rep`. */
  function ExpandChar(s: string, c: char, rep: string): string {
    if s == [] then ""
    else (if s[0] == c then rep else [s[0]]) + ExpandChar(s[1..], c, rep)
  }

  /** For a one-character pattern, the left-to-right scan is a character-wise
      expansion. */
  lemma {:induction false} ReplaceCharIsExpand(s: string, c: char, rep: string)
    ensures ReplaceAll(s, [c], rep) == ExpandChar(s, c, rep)
  {
    if s != [] {
      ReplaceCharIsExpand(s[1..], c, rep);
      assert StartsAt(s, [c], 0) <==> s[0] == c;
      assert s[1..] == s[|[c]|..];
    }
  }

  // ---------------------------------------------------------------------------
  // A fixed, ordered chain of replace calls
  // ---------------------------------------------------------------------------

  type Substitution = (string, string)

  predicate WellFormed(table: seq<Substitution>) {
    forall i :: 0 <= i < |table| ==> |table[i].0| > 0 && |table[i].1| > 0
  }

  /** `s.replace(/p0/g, r0).replace(/p1/g, r1)...` for the pairs of `table`, in order. */
  function ReplaceEach(s: string, table: seq<Substitution>): string
    requires WellFormed(table)
    decreases |table|
  {
    if table == [] then s
    else ReplaceEach(ReplaceAll(s, table[0].0, table[0].1), table[1..])
  }

  /** Text in which no pattern occurs passes through the chain unchanged. */
  lemma {:induction false} ReplaceEachAbsent(s: string, table: seq<Substitution>)
    requires WellFormed(table)
    requires forall i :: 0 <= i < |table| ==> !Occurs(s, table[i].0)
    ensures ReplaceEach(s, table) == s
    decreases |table|
  {
    if table != [] {
      ReplaceAbsent(s, table[0].0, table[0].1);
      ReplaceEachAbsent(s, table[1..]);
    }
  }

  /** A pattern absent before the chain stays absent when no replacement of the
      chain shares a character with it. */
  lemma {:induction false} ReplaceEachKeepsAbsent(s: string, table: seq<Substitution>, p: string)
    requires WellFormed(table) && |p| > 0
    requires forall j :: 0 <= j < |table| ==> Disjoint(p, table[j].1)
    requires !Occurs(s, p)
    ensures !Occurs(ReplaceEach(s, table), p)
    decreases |table|
  {
    if table != [] {
      ReplaceLeavesNoMatch(s, table[0].0, table[0].1, p);
      ReplaceEachKeepsAbsent(ReplaceAll(s, table[0].0, table[0].1), table[1..], p);
    }
  }

  /** When no replacement shares a character with any pattern, no pattern of
      the chain occurs in its output. */
  lemma {:induction false} ReplaceEachRemovesAll(s: string, table: seq<Substitution>)
    requires WellFormed(table)
    requires forall i, j :: 0 <= i < |table| && 0 <= j < |table| ==> Disjoint(table[i].0, table[j].1)
    ensures forall i :: 0 <= i < |table| ==> !Occurs(ReplaceEach(s, table), table[i].0)
    decreases |table|
  {
    if table != [] {
      var s' := ReplaceAll(s, table[0].0, table[0].1);
      var rest := table[1..];
      ReplaceLeavesNoMatch(s, table[0].0, table[0].1, table[0].0);
      ReplaceEachKeepsAbsent(s', rest, table[0].0);
      ReplaceEachRemovesAll(s', rest);
      forall i | 1 <= i < |table| ensures !Occurs(ReplaceEach(s', rest), table[i].0) {
        assert table[i] == rest[i - 1];
      }
    }
  }

  // ---------------------------------------------------------------------------
  // split and join
  // ---------------------------------------------------------------------------

  /** The index of the first character of `s` in `seps`, or `|s|`. */
  function FieldEnd(s: string, seps: set<char>): (e: nat)
    ensures e <= |s|
    ensures forall k :: 0 <= k < e ==> s[k] !in seps
    ensures e < |s| ==> s[e] in seps
  {
    if s == [] || s[0] in seps then 0 else 1 + FieldEnd(s[1..], seps)
  }

  /** `s.split(',')`, and `s.split(/[\n,]/)` for a set of separators: the
      maximal runs between separators, empty ones included, so there is one
      field more than there are separators. */
  function Split(s: string, seps: set<char>): (fields: seq<string>)
    ensures |fields| >= 1
    ensures forall i, k :: 0 <= i < |fields| && 0 <= k < |fields[i]| ==> fields[i][k] !in seps
    decreases |s|
  {
    var e := FieldEnd(s, seps);
    if e == |s| then [s] else [s[..e]] + Split(s[e + 1..], seps)
  }

  /** `parts.join(sep)`. */
  function Join(parts: seq<string>, sep: string): string {
    if |parts| == 0 then ""
    else if |parts| == 1 then parts[0]
    else parts[0] + sep + Join(parts[1..], sep)
  }

  predicate NoneIn(s: string, seps: set<char>) {
    forall k :: 0 <= k < |s| ==> s[k] !in seps
  }

  lemma {:induction false} FieldEndAt(a: string, rest: string, seps: set<char>)
    requires NoneIn(a, seps)
    requires rest == [] || rest[0] in seps
    ensures FieldEnd(a + rest, seps) == |a|
  {
    if a != [] {
      assert (a + rest)[0] == a[0];
      assert (a + rest)[1..] == a[1..] + rest;
      FieldEndAt(a[1..], rest, seps);
    } else {
      assert a + rest == rest;
    }
  }

  /** A field followed by a separator splits off as the first field. */
  lemma SplitCons(a: string, c: char, b: string, seps: set<char>)
    requires NoneIn(a, seps) && c in seps
    ensures Split(a + [c] + b, seps) == [a] + Split(b, seps)
  {
    var s := a + [c] + b;
    FieldEndAt(a, [c] + b, seps);
    assert s == a + ([c] + b);
    assert s[..|a|] == a;
    assert s[|a| + 1..] == b;
  }

  /** Text without separators is a single field. */
  lemma SplitSingle(a: string, seps: set<char>)
    requires NoneIn(a, seps)
    ensures Split(a, seps) == [a]
  {
    FieldEndAt(a, [], seps);
    assert a + [] == a;
  }

  /** Joining the fields with the separator gives back the text. */
  lemma {:induction false} JoinSplit(s: string, c: char)
    ensures Join(Split(s, {c}), [c]) == s
    decreases |s|
  {
    var e := FieldEnd(s, {c});
    if e < |s| {
      var t := s[e + 1..];
      var rest := Split(t, {c});
      JoinSplit(t, c);
      var parts := [s[..e]] + rest;
      assert Split(s, {c}) == parts;
      assert |parts| >= 2 && parts[0] == s[..e] && parts[1..] == rest;
      assert Join(parts, [c]) == s[..e] + [c] + Join(rest, [c]);
      assert s == s[..e] + [c] + t;
    }
  }

  /** Splitting joined fields that contain no separator gives back the fields. */
  lemma {:induction false} SplitJoin(parts: seq<string>, c: char)
    requires |parts| >= 1
    requires forall i :: 0 <= i < |parts| ==> c !in parts[i]
    ensures Split(Join(parts, [c]), {c}) == parts
  {
    if |parts| == 1 {
      SplitSingle(parts[0], {c});
    } else {
      SplitJoin(parts[1..], c);
      SplitCons(parts[0], c, Join(parts[1..], [c]), {c});
      assert parts == [parts[0]] + parts[1..];
    }
  }

  /** Two separator sets that agree on every character of `s` split it alike. */
  lemma {:induction false} SplitAgrees(s: string, a: set<char>, b: set<char>)
    requires forall k :: 0 <= k < |s| ==> (s[k] in a <==> s[k] in b)
    ensures Split(s, a) == Split(s, b)
    decreases |s|
  {
    FieldEndAgrees(s, a, b);
    var e := FieldEnd(s, a);
    if e < |s| {
      var t := s[e + 1..];
      forall k | 0 <= k < |t| ensures t[k] in a <==> t[k] in b {
        assert t[k] == s[e + 1 + k];
      }
      SplitAgrees(t, a, b);
      assert Split(s, a) == [s[..e]] + Split(t, a);
      assert Split(s, b) == [s[..e]] + Split(t, b);
    }
  }

  lemma {:induction false} FieldEndAgrees(s: string, a: set<char>, b: set<char>)
    requires forall k :: 0 <= k < |s| ==> (s[k] in a <==> s[k] in b)
    ensures FieldEnd(s, a) == FieldEnd(s, b)
  {
    if s != [] {
      var t := s[1..];
      forall k | 0 <= k < |t| ensures t[k] in a <==> t[k] in b {
        assert t[k] == s[1 + k];
      }
      FieldEndAgrees(t, a, b);
    }
  }
}
