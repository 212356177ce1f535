/** The string helpers of lib/mini/ini.h: trimming, letter case, replacing and escaped equals signs. */
module IniText {

  // " \t\n\r\f\v"
  predicate IsSpace(c: char) {
    c == ' ' || c == '\t' || c == '\n' || c == '\r' || c == '\U{0C}' || c == '\U{0B}'
  }

  ghost predicate AllSpace(s: string) {
    forall k :: 0 <= k < |s| ==> IsSpace(s[k])
  }

  function TrimLeft(s: string): string {
    if s != "" && IsSpace(s[0]) then TrimLeft(s[1..]) else s
  }

  function TrimRight(s: string): string {
    if s != "" && IsSpace(s[|s| - 1]) then TrimRight(s[..|s| - 1]) else s
  }

  lemma {:induction false} TrimLeftFacts(s: string)
    ensures var r := TrimLeft(s);
            && |r| <= |s| && r == s[|s| - |r|..] && AllSpace(s[..|s| - |r|])
            && (r != "" ==> !IsSpace(r[0]))
  {
    if s != "" && IsSpace(s[0]) {
      TrimLeftFacts(s[1..]);
      var r := TrimLeft(s);
      assert s[..|s| - |r|] == [s[0]] + s[1..][..|s| - 1 - |r|];
    }
  }

  lemma {:induction false} TrimRightFacts(s: string)
    ensures var r := TrimRight(s);
            && |r| <= |s| && r == s[..|r|] && AllSpace(s[|r|..])
            && (r != "" ==> !IsSpace(r[|r| - 1]))
  {
    if s != "" && IsSpace(s[|s| - 1]) {
      TrimRightFacts(s[..|s| - 1]);
      var r := TrimRight(s);
      assert s[|r|..] == s[..|s| - 1][|r|..] + [s[|s| - 1]];
    }
  }

  lemma RightOfTrimmed(s: string)
    ensures TrimRight(s) <= s && forall k :: |TrimRight(s)| <= k < |s| ==> IsSpace(s[k])
  {
    TrimRightFacts(s);
    var r := TrimRight(s);
    forall k | |r| <= k < |s| ensures IsSpace(s[k]) {
      assert s[k] == s[|r|..][k - |r|];
    }
  }

  // str.erase(find_last_not_of + 1), then str.erase(0, find_first_not_of)
  function Trim(s: string): string {
    TrimLeft(TrimRight(s))
  }

  ghost predicate Trimmed(s: string) {
    s != "" ==> !IsSpace(s[0]) && !IsSpace(s[|s| - 1])
  }

  // ---------- trimming laws ----------

  lemma {:induction false} TrimLeftSkips(w: string, s: string)
    requires AllSpace(w)
    ensures TrimLeft(w + s) == TrimLeft(s)
  {
    if w == "" {
      assert w + s == s;
    } else {
      assert (w + s)[1..] == w[1..] + s;
      TrimLeftSkips(w[1..], s);
    }
  }

  lemma {:induction false} TrimRightSkips(s: string, w: string)
    requires AllSpace(w)
    ensures TrimRight(s + w) == TrimRight(s)
  {
    if w == "" {
      assert s + w == s;
    } else {
      var n := |w| - 1;
      assert (s + w)[..|s + w| - 1] == s + w[..n];
      TrimRightSkips(s, w[..n]);
    }
  }

  // A string that is spaces, then a trimmed core, then spaces, trims to its core
  lemma TrimCore(w: string, core: string, z: string)
    requires AllSpace(w) && AllSpace(z) && Trimmed(core)
    ensures Trim(w + core + z) == core
  {
    TrimRightSkips(w + core, z);
    if core == "" {
      assert w + core == "" + w;
      TrimRightSkips("", w);
    } else {
      assert TrimRight(w + core) == w + core;
      TrimLeftSkips(w, core);
    }
  }

  // Every string is spaces, then its trimmed core, then spaces
  lemma TrimParts(s: string) returns (w: string, z: string)
    ensures s == w + Trim(s) + z && AllSpace(w) && AllSpace(z) && Trimmed(Trim(s))
  {
    hide TrimLeft, TrimRight;
    var t := TrimRight(s);
    TrimRightFacts(s);
    TrimLeftFacts(t);
    z := s[|t|..];
    w := t[..|t| - |Trim(s)|];
    assert s == t + z && t == w + Trim(s);
    if Trim(s) != "" {
      assert Trim(s)[|Trim(s)| - 1] == t[|t| - 1];
    }
  }

  // Trimming takes exactly the six white space characters off both ends
  lemma TrimExactly(s: string) returns (w: string, z: string)
    ensures s == w + Trim(s) + z
    ensures forall k :: 0 <= k < |w| ==> w[k] in {' ', '\t', '\n', '\r', '\U{0B}', '\U{0C}'}
    ensures forall k :: 0 <= k < |z| ==> z[k] in {' ', '\t', '\n', '\r', '\U{0B}', '\U{0C}'}
    ensures Trim(s) != "" ==>
              && Trim(s)[0] !in {' ', '\t', '\n', '\r', '\U{0B}', '\U{0C}'}
              && Trim(s)[|Trim(s)| - 1] !in {' ', '\t', '\n', '\r', '\U{0B}', '\U{0C}'}
  {
    hide Trim;
    w, z := TrimParts(s);
  }

  lemma TrimIsNoLonger(s: string)
    ensures |Trim(s)| <= |s|
  {
    TrimRightFacts(s);
    TrimLeftFacts(TrimRight(s));
  }

  lemma TrimIsTrimmed(s: string)
    ensures Trimmed(Trim(s))
    ensures Trim(Trim(s)) == Trim(s)
  {
    var w, z := TrimParts(s);
    TrimOfTrimmed(Trim(s));
  }

  lemma TrimOfTrimmed(s: string)
    requires Trimmed(s)
    ensures Trim(s) == s
  {
  }

  lemma Regroup(w: string, a: string, core: string, b: string, z: string)
    ensures w + (a + core + b) + z == (w + a) + core + (b + z)
  {
  }

  // Spaces on either side do not matter
  lemma TrimPadded(w: string, s: string, z: string)
    requires AllSpace(w) && AllSpace(z)
    ensures Trim(w + s + z) == Trim(s)
  {
    var a, b := TrimParts(s);
    Regroup(w, a, Trim(s), b, z);
    TrimCore(w + a, Trim(s), b + z);
  }

  // ---------- letter case ----------

  function LowerChar(c: char): char {
    if 'A' <= c <= 'Z' then c + ' ' else c
  }

  function Lower(s: string): (r: string)
    ensures |r| == |s| && forall k :: 0 <= k < |s| ==> r[k] == LowerChar(s[k])
  {
    seq(|s|, k requires 0 <= k < |s| => LowerChar(s[k]))
  }

  // What INIMap does to every key it is given
  function Norm(key: string): string {
    Lower(Trim(key))
  }

  lemma LowerKeepsTrimmed(s: string)
    requires Trimmed(s)
    ensures Trimmed(Lower(s))
  {
  }

  lemma LowerTwice(s: string)
    ensures Lower(Lower(s)) == Lower(s)
  {
  }

  lemma NormIsIdempotent(key: string)
    ensures Norm(Norm(key)) == Norm(key)
  {
    TrimIsTrimmed(key);
    LowerKeepsTrimmed(Trim(key));
    TrimOfTrimmed(Norm(key));
    LowerTwice(Trim(key));
  }

  // The same character, or the same letter in the other case
  predicate SameLetter(c: char, d: char) {
    || c == d
    || ('a' <= c <= 'z' && d as int == c as int - 0x20)
    || ('a' <= d <= 'z' && c as int == d as int - 0x20)
  }

  // Two keys are one key exactly if they differ only in outer spaces and in the case of letters
  lemma KeysIgnoreCase(a: string, b: string)
    ensures Norm(a) == Norm(b) <==>
            |Trim(a)| == |Trim(b)| && forall k :: 0 <= k < |Trim(a)| ==> SameLetter(Trim(a)[k], Trim(b)[k])
  {
    var s, t := Trim(a), Trim(b);
    if Norm(a) == Norm(b) {
      forall k | 0 <= k < |s| ensures SameLetter(s[k], t[k]) {
        assert Lower(s)[k] == LowerChar(s[k]) && Lower(t)[k] == LowerChar(t[k]);
      }
    }
    if |s| == |t| && forall k :: 0 <= k < |s| ==> SameLetter(s[k], t[k]) {
      forall k | 0 <= k < |s| ensures Lower(s)[k] == Lower(t)[k] {
        assert SameLetter(s[k], t[k]);
      }
    }
  }

  // ---------- replacing ----------

  // INIStringUtil::replace: left to right, never inside what was just inserted
  function Replace(s: string, a: string, b: string): string
    requires a != ""
  {
    if |s| < |a| then s
    else if s[..|a|] == a then b + Replace(s[|a|..], a, b)
    else [s[0]] + Replace(s[1..], a, b)
  }

  predicate FoundAt(s: string, a: string, k: nat) {
    k + |a| <= |s| && s[k..k + |a|] == a
  }

  // std::string::find from pos on: -1 when there is none
  function FindText(s: string, a: string, pos: nat): (at: int)
    requires pos <= |s|
    ensures at == -1 || (pos <= at && FoundAt(s, a, at))
    ensures forall k :: pos <= k < (if at == -1 then |s| + 1 else at) ==> !FoundAt(s, a, k)
    decreases |s| - pos
  {
    if FoundAt(s, a, pos) then pos
    else if pos == |s| then -1
    else FindText(s, a, pos + 1)
  }

  lemma FoundBehind(front: string, rest: string, a: string, k: nat)
    ensures FoundAt(front + rest, a, |front| + k) <==> FoundAt(rest, a, k)
  {
    if k + |a| <= |rest| {
      assert (front + rest)[|front| + k..|front| + k + |a|] == rest[k..k + |a|];
    }
  }

  ghost predicate NoneBefore(s: string, a: string, n: nat) {
    forall k :: 0 <= k < n ==> !FoundAt(s, a, k)
  }

  // Nothing changes before the first occurrence
  lemma {:induction false} ReplaceSkips(front: string, rest: string, a: string, b: string)
    requires a != "" && NoneBefore(front + rest, a, |front|)
    ensures Replace(front + rest, a, b) == front + Replace(rest, a, b)
  {
    if front == "" {
      assert front + rest == rest;
    } else {
      var s, next := front + rest, front[1..] + rest;
      assert s == [s[0]] + next && s[1..] == next;
      forall k | 0 <= k < |front| - 1 ensures !FoundAt(next, a, k) {
        FoundBehind([s[0]], next, a, k);
        assert !FoundAt(s, a, k + 1);
      }
      ReplaceSkips(front[1..], rest, a, b);
      assert !FoundAt(s, a, 0);
      ReplaceKeepsFirst(s, a, b);
      assert front == [s[0]] + front[1..];
    }
  }

  lemma ReplaceKeepsFirst(s: string, a: string, b: string)
    requires a != "" && s != "" && !FoundAt(s, a, 0)
    ensures Replace(s, a, b) == [s[0]] + Replace(s[1..], a, b)
  {
    if |s| >= |a| {
      assert s[..|a|] == s[0..0 + |a|];
    } else {
      assert s == [s[0]] + s[1..];
    }
  }

  // One round of the loop, which has come past done: the rest is front, an occurrence and back
  lemma ReplaceRound(done: string, front: string, back: string, a: string, b: string)
    requires a != "" && NoneBefore(front + (a + back), a, |front|)
    ensures done + Replace(front + (a + back), a, b) == (done + front + b) + Replace(back, a, b)
  {
    ReplaceSkips(front, a + back, a, b);
    assert (a + back)[..|a|] == a && (a + back)[|a|..] == back;
    assert Replace(a + back, a, b) == b + Replace(back, a, b);
  }

  // The rest of the text around the next occurrence
  lemma SplitFound(done: string, rest: string, a: string, at: nat) returns (front: string, back: string)
    requires |done| <= at && FoundAt(done + rest, a, at)
    requires forall k :: |done| <= k < at ==> !FoundAt(done + rest, a, k)
    ensures rest == front + (a + back) && |front| == at - |done|
    ensures NoneBefore(rest, a, |front|)
  {
    var n := at - |done|;
    FoundBehind(done, rest, a, n);
    front, back := rest[..n], rest[n + |a|..];
    assert rest == rest[..n] + (rest[n..n + |a|] + rest[n + |a|..]);
    NoneBehind(done, rest, a, n);
  }

  lemma NoneBehind(done: string, rest: string, a: string, n: nat)
    requires forall k :: |done| <= k < |done| + n ==> !FoundAt(done + rest, a, k)
    ensures NoneBefore(rest, a, n)
  {
    forall k | 0 <= k < n ensures !FoundAt(rest, a, k) {
      FoundBehind(done, rest, a, k);
      assert !FoundAt(done + rest, a, |done| + k);
    }
  }

  lemma SpliceParts(done: string, front: string, a: string, back: string, b: string)
    ensures var s := done + (front + (a + back));
            var at := |done| + |front|;
            s[..at] + b + s[at + |a|..] == (done + front + b) + back
  {
  }

  // What one round does to the text and to the two parts of it
  lemma Round(done: string, rest: string, a: string, b: string, at: nat) returns (done': string, rest': string)
    requires a != "" && |done| <= at && FoundAt(done + rest, a, at)
    requires forall k :: |done| <= k < at ==> !FoundAt(done + rest, a, k)
    ensures var s := done + rest; s[..at] + b + s[at + |a|..] == done' + rest'
    ensures |done'| == at + |b| && |rest'| < |rest|
    ensures done' + Replace(rest', a, b) == done + Replace(rest, a, b)
  {
    var front, back := SplitFound(done, rest, a, at);
    ReplaceRound(done, front, back, a, b);
    SpliceParts(done, front, a, back, b);
    done', rest' := done + front + b, back;
  }

  lemma {:induction false} NoMore(done: string, rest: string, a: string, b: string)
    requires a != "" && FindText(done + rest, a, |done|) == -1
    ensures Replace(rest, a, b) == rest
  {
    NoneBehind(done, rest, a, |rest|);
    assert rest + "" == rest;
    ReplaceSkips(rest, "", a, b);
  }

  // The loop searches on from behind the text it has just put in
  method ReplaceAll(s: string, a: string, b: string) returns (str: string)
    requires a != ""
    ensures str == Replace(s, a, b)
  {
    str := s;
    var pos := 0;
    ghost var done, rest := "", s;
    while true
      invariant str == done + rest && pos == |done|
      invariant done + Replace(rest, a, b) == Replace(s, a, b)
      decreases |rest|
    {
      var at := FindText(str, a, pos);
      if at == -1 {
        NoMore(done, rest, a, b);
        return;
      }
      done, rest := Round(done, rest, a, b, at);
      str := str[..at] + b + str[at + |a|..];
      pos := at + |b|;
    }
  }

  const ESCAPED_EQ := "\\="

  function Escape(key: string): string {
    Replace(key, "=", ESCAPED_EQ)
  }

  function Unescape(s: string): string {
    Replace(s, ESCAPED_EQ, "=")
  }

  // Escaped equals signs blanked out, lengths kept
  function Mask(s: string): string {
    Replace(s, ESCAPED_EQ, "  ")
  }

  // Position i of s belongs to an escaped equals sign
  predicate Masked(s: string, i: nat)
    requires i < |s|
  {
    (s[i] == '=' && i > 0 && s[i - 1] == '\\') || (s[i] == '\\' && i + 1 < |s| && s[i + 1] == '=')
  }

  lemma {:induction false} MaskChars(s: string)
    ensures |Mask(s)| == |s|
    ensures forall i :: 0 <= i < |s| ==> Mask(s)[i] == if Masked(s, i) then ' ' else s[i]
  {
    if |s| >= 2 {
      if s[..2] == ESCAPED_EQ {
        assert s[0] == s[..2][0] && s[1] == s[..2][1];
        MaskChars(s[2..]);
        forall i | 2 <= i < |s| ensures Masked(s, i) == Masked(s[2..], i - 2) {
        }
      } else {
        MaskChars(s[1..]);
        assert s[..2] == [s[0], s[1]];
        forall i | 1 <= i < |s| ensures Masked(s, i) == Masked(s[1..], i - 1) {
        }
      }
    }
  }
}
