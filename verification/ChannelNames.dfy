/** Channel-name sanitizing (backend/internal/httpapi/validate.go): one builder loop against a definition by words. */
module ChannelNames {
  import opened Wrappers

  const MAX_RUNES: nat := 100

  /** What `strings.TrimSpace` strips. */
  predicate IsSpace(c: char) {
    || '\t' <= c <= '\r' || c == ' ' || c == '\U{85}' || c == '\U{A0}' || c == '\U{1680}'
    || '\U{2000}' <= c <= '\U{200A}' || c == '\U{2028}' || c == '\U{2029}' || c == '\U{202F}'
    || c == '\U{205F}' || c == '\U{3000}'
  }

  predicate IsWord(c: char) {
    'a' <= c <= 'z' || '0' <= c <= '9' || c == '_'
  }

  predicate IsSeparator(c: char) {
    c == ' ' || c == '\t' || c == '-'
  }

  predicate IsNameChar(c: char) {
    IsWord(c) || c == '-'
  }

  /** Lower-casing works rune by rune and leaves the characters of a name alone. */
  ghost predicate IsLower(lower: char -> char) {
    forall c | IsNameChar(c) :: lower(c) == c
  }

  function TrimLeft(s: string): string {
    if s != [] && IsSpace(s[0]) then TrimLeft(s[1..]) else s
  }

  function TrimRight(s: string): string {
    if s != [] && IsSpace(s[|s| - 1]) then TrimRight(s[..|s| - 1]) else s
  }

  function TrimSpace(s: string): string {
    TrimRight(TrimLeft(s))
  }

  function Lowered(s: string, lower: char -> char): (r: string)
    ensures |r| == |s|
  {
    seq(|s|, i requires 0 <= i < |s| => lower(s[i]))
  }

  // ---- the definition by words ----

  /** The words of a string: maximal runs of word characters between separators; other characters are ignored.
      `cur` is the word being read. */
  function WordsFrom(s: string, cur: string): seq<string> {
    if s == [] then if cur == [] then [] else [cur]
    else if IsWord(s[0]) then WordsFrom(s[1..], cur + [s[0]])
    else if IsSeparator(s[0]) then (if cur == [] then [] else [cur]) + WordsFrom(s[1..], [])
    else WordsFrom(s[1..], cur)
  }

  function Words(s: string): seq<string> { WordsFrom(s, []) }

  function Join(words: seq<string>): string {
    if words == [] then [] else if |words| == 1 then words[0] else words[0] + ['-'] + Join(words[1..])
  }

  /** A name is its words joined by single dashes; there must be one, and the trimmed input must have 1 to 100 runes. */
  function ChannelName(input: string, lower: char -> char): Result<string, ()> {
    var n := TrimSpace(input);
    var words := Words(Lowered(n, lower));
    if |n| < 1 || |n| > MAX_RUNES || words == [] then Failure(()) else Success(Join(words))
  }

  // ---- what the words are ----

  /** Reading `v` after `u`: the words of `u`, but the last one may go on. */
  lemma {:induction false} WordsGoOn(u: string, v: string, cur: string) returns (done: seq<string>, last: string)
    ensures WordsFrom(u, cur) == done + if last == [] then [] else [last]
    ensures WordsFrom(u + v, cur) == done + WordsFrom(v, last)
    decreases |u|
  {
    if u == [] {
      done, last := [], cur;
      assert u + v == v;
    } else {
      assert (u + v)[1..] == u[1..] + v;
      if IsWord(u[0]) {
        done, last := WordsGoOn(u[1..], v, cur + [u[0]]);
      } else if IsSeparator(u[0]) {
        var rest, tail := WordsGoOn(u[1..], v, []);
        var first := if cur == [] then [] else [cur];
        done, last := first + rest, tail;
        assert first + (rest + WordsFrom(v, tail)) == first + rest + WordsFrom(v, tail);
      } else {
        done, last := WordsGoOn(u[1..], v, cur);
      }
    }
  }

  /** A space, a tab or a dash separates words. */
  lemma SeparatorSplits(u: string, c: char, v: string)
    requires c == ' ' || c == '\t' || c == '-'
    ensures Words(u + [c] + v) == Words(u) + Words(v)
  {
    var done, last := WordsGoOn(u, [c] + v, []);
    assert u + [c] + v == u + ([c] + v) && ([c] + v)[1..] == v;
    assert WordsFrom([c] + v, last) == (if last == [] then [] else [last]) + Words(v);
  }

  /** Any character that is no separator, letter, digit or underscore is as if it were not there. */
  lemma OthersAreDropped(u: string, c: char, v: string)
    requires c != ' ' && c != '\t' && c != '-'
    requires !('a' <= c <= 'z') && !('0' <= c <= '9') && c != '_'
    ensures Words(u + [c] + v) == Words(u + v)
  {
    DroppedAt(u, c, v, []);
    assert u + [c] + v == u + ([c] + v);
  }

  lemma {:induction false} DroppedAt(u: string, c: char, v: string, cur: string)
    requires !IsWord(c) && !IsSeparator(c)
    ensures WordsFrom(u + ([c] + v), cur) == WordsFrom(u + v, cur)
    decreases |u|
  {
    if u == [] {
      assert u + ([c] + v) == [c] + v && ([c] + v)[1..] == v && u + v == v;
    } else {
      assert (u + ([c] + v))[1..] == u[1..] + ([c] + v) && (u + v)[1..] == u[1..] + v;
      DroppedAt(u[1..], c, v, if IsWord(u[0]) then cur + [u[0]] else if IsSeparator(u[0]) then [] else cur);
    }
  }

  /** Letters, digits and underscores in a row are one word. */
  lemma {:induction false} RunIsOneWord(w: string, cur: string)
    requires cur + w != []
    requires forall c <- w :: 'a' <= c <= 'z' || '0' <= c <= '9' || c == '_'
    ensures WordsFrom(w, cur) == [cur + w]
    decreases |w|
  {
    if w == [] {
      assert cur + w == cur;
    } else {
      assert w[0] in w && forall c <- w[1..] :: c in w;
      RunIsOneWord(w[1..], cur + [w[0]]);
      assert cur + [w[0]] + w[1..] == cur + w;
    }
  }

  /** A name is its words with a dash between each two: nothing in front, nothing behind. */
  lemma JoinedWords(u: seq<string>, w: string, v: seq<string>)
    ensures Join([]) == "" && Join([w]) == w
    ensures u != [] && v != [] ==> Join(u + v) == Join(u) + "-" + Join(v)
  {
    if u != [] && v != [] { JoinSplits(u, v); }
  }

  lemma {:induction false} JoinSplits(u: seq<string>, v: seq<string>)
    requires u != [] && v != []
    ensures Join(u + v) == Join(u) + ['-'] + Join(v)
    decreases |u|
  {
    assert (u + v)[1..] == u[1..] + v;
    if |u| == 1 {
      assert u[1..] + v == v;
    } else {
      JoinSplits(u[1..], v);
    }
  }

  /** Trimming takes spaces off both ends, all of them, and nothing else. The spaces are the 25 of the Unicode property
      White_Space. */
  lemma TrimmedIs(pre: string, mid: string, post: string)
    requires forall c :: c in pre || c in post ==> c in WHITE_SPACE
    requires mid != [] ==> mid[0] !in WHITE_SPACE && mid[|mid| - 1] !in WHITE_SPACE
    ensures TrimSpace(pre + mid + post) == mid
  {
    assert pre + mid + post == pre + (mid + post);
    assert forall c :: c in WHITE_SPACE <==> IsSpace(c) by { WhiteSpaceIs(); }
    TrimsLeft(pre, mid + post);
    if mid == [] {
      assert mid + post == post + [];
      TrimsLeft(post, []);
    } else {
      TrimsRight(mid, post);
    }
  }

  const WHITE_SPACE: string :=
    "\t\n\U{0B}\U{0C}\r \U{85}\U{A0}\U{1680}\U{2000}\U{2001}\U{2002}\U{2003}\U{2004}\U{2005}\U{2006}\U{2007}\U{2008}"
    + "\U{2009}\U{200A}\U{2028}\U{2029}\U{202F}\U{205F}\U{3000}"

  lemma WhiteSpaceIs()
    ensures forall c :: c in WHITE_SPACE <==> IsSpace(c)
  {
    forall c ensures c in WHITE_SPACE <==> IsSpace(c) {
    }
  }

  lemma {:induction false} TrimsLeft(pre: string, rest: string)
    requires forall c <- pre :: IsSpace(c)
    ensures TrimLeft(pre + rest) == TrimLeft(rest)
    decreases |pre|
  {
    if pre == [] {
      assert pre + rest == rest;
    } else {
      assert (pre + rest)[1..] == pre[1..] + rest;
      assert pre[0] in pre && forall c <- pre[1..] :: c in pre;
      TrimsLeft(pre[1..], rest);
    }
  }

  lemma {:induction false} TrimsRight(mid: string, post: string)
    requires mid != [] && !IsSpace(mid[|mid| - 1]) && forall c <- post :: IsSpace(c)
    ensures TrimRight(mid + post) == mid
    decreases |post|
  {
    if post == [] {
      assert mid + post == mid;
    } else {
      var init := post[..|post| - 1];
      assert (mid + post)[..|mid + post| - 1] == mid + init;
      assert post[|post| - 1] in post && forall c <- init :: c in post;
      TrimsRight(mid, init);
    }
  }

  // ---- the builder loop ----

  function TrimDashes(s: string): string {
    if s != [] && s[0] == '-' then TrimDashes(s[1..])
    else if s != [] && s[|s| - 1] == '-' then TrimDashes(s[..|s| - 1])
    else s
  }

  /** The builder's contents: the finished words, the dash after them, and the word being read. */
  function Built(done: seq<string>, cur: string): string {
    if done == [] then cur else Join(done) + ['-'] + cur
  }

  ghost predicate IsRun(w: string) {
    forall i :: 0 <= i < |w| ==> IsWord(w[i])
  }

  ghost predicate AllWords(words: seq<string>) {
    forall i :: 0 <= i < |words| ==> words[i] != [] && IsRun(words[i])
  }

  /** How the loop state accounts for the input: finished words, then what the rest adds to the current word. */
  ghost predicate ReadSoFar(n: string, i: nat, b: string, lastDash: bool, done: seq<string>, cur: string)
    requires i <= |n|
  {
    && Words(n) == done + WordsFrom(n[i..], cur)
    && b == Built(done, cur)
    && (lastDash <==> done != [] && cur == [])
    && AllWords(done) && IsRun(cur)
  }

  lemma ReadWordChar(n: string, i: nat, b: string, lastDash: bool, done: seq<string>, cur: string)
    requires i < |n| && IsWord(n[i]) && ReadSoFar(n, i, b, lastDash, done, cur)
    ensures ReadSoFar(n, i + 1, b + [n[i]], false, done, cur + [n[i]])
  {
    assert n[i..][0] == n[i] && n[i..][1..] == n[i + 1..];
  }

  /** The builder is non-empty and does not end in a dash exactly when a word is being read. */
  lemma DashIsDueIff(n: string, i: nat, b: string, lastDash: bool, done: seq<string>, cur: string)
    requires i <= |n| && ReadSoFar(n, i, b, lastDash, done, cur)
    ensures !lastDash && |b| > 0 <==> cur != []
  {
  }

  lemma ReadSeparator(n: string, i: nat, b: string, lastDash: bool, done: seq<string>, cur: string)
    requires i < |n| && !IsWord(n[i]) && IsSeparator(n[i]) && ReadSoFar(n, i, b, lastDash, done, cur)
    ensures cur != [] ==> ReadSoFar(n, i + 1, b + ['-'], true, done + [cur], [])
    ensures cur == [] ==> ReadSoFar(n, i + 1, b, lastDash, done, cur)
  {
    hide Join;
    assert n[i..][0] == n[i] && n[i..][1..] == n[i + 1..];
    if cur != [] {
      JoinSnoc(done, cur);
      assert done + ([cur] + WordsFrom(n[i + 1..], [])) == done + [cur] + WordsFrom(n[i + 1..], []);
    }
  }

  lemma ReadDropped(n: string, i: nat, b: string, lastDash: bool, done: seq<string>, cur: string)
    requires i < |n| && !IsWord(n[i]) && !IsSeparator(n[i]) && ReadSoFar(n, i, b, lastDash, done, cur)
    ensures ReadSoFar(n, i + 1, b, lastDash, done, cur)
  {
    assert n[i..][0] == n[i] && n[i..][1..] == n[i + 1..];
  }

  method SanitizeChannelName(input: string, lower: char -> char) returns (r: Result<string, ()>)
    ensures r == ChannelName(input, lower)
  {
    var n := TrimSpace(input);
    if |n| < 1 || |n| > MAX_RUNES {
      return Failure(());
    }
    n := Lowered(n, lower);
    var b: string := [];
    var lastDash := false;
    ghost var done: seq<string>, cur: string := [], [];
    assert n[0..] == n;
    assert ReadSoFar(n, 0, b, lastDash, done, cur);
    hide ReadSoFar;
    for i := 0 to |n|
      invariant ReadSoFar(n, i, b, lastDash, done, cur)
    {
      var c := n[i];
      if IsWord(c) {
        ReadWordChar(n, i, b, lastDash, done, cur);
        b := b + [c];
        lastDash := false;
        cur := cur + [c];
      } else if IsSeparator(c) {
        DashIsDueIff(n, i, b, lastDash, done, cur);
        ReadSeparator(n, i, b, lastDash, done, cur);
        if !lastDash && |b| > 0 {
          b := b + ['-'];
          lastDash := true;
          done, cur := done + [cur], [];
        }
      } else {
        ReadDropped(n, i, b, lastDash, done, cur);
      }
    }
    var out := TrimDashes(b);
    ReadAll(n, b, lastDash, done, cur);
    if out == [] {
      return Failure(());
    }
    r := Success(out);
  }

  lemma JoinCons(w: string, rest: seq<string>)
    ensures Join([w] + rest) == if rest == [] then w else w + ['-'] + Join(rest)
  {
    assert ([w] + rest)[1..] == rest;
  }

  lemma {:induction false} JoinSnoc(words: seq<string>, w: string)
    ensures Join(words + [w]) == if words == [] then w else Join(words) + ['-'] + w
  {
    if |words| > 1 {
      assert (words + [w])[1..] == words[1..] + [w];
      JoinSnoc(words[1..], w);
    }
  }

  /** A join of words starts and ends with a word character. */
  lemma {:induction false} JoinEnds(words: seq<string>)
    requires AllWords(words) && words != []
    ensures Join(words) != [] && IsWord(Join(words)[0]) && IsWord(Join(words)[|Join(words)| - 1])
  {
    if |words| > 1 {
      JoinEnds(words[1..]);
    }
  }

  /** Trimming what the loop built leaves the joined words. */
  lemma BuiltTrims(done: seq<string>, cur: string)
    requires AllWords(done) && IsRun(cur)
    ensures TrimDashes(Built(done, cur)) == Join(done + if cur == [] then [] else [cur])
  {
    if cur != [] {
      JoinSnoc(done, cur);
      JoinEnds(done + [cur]);
    } else if done != [] {
      JoinEnds(done);
      assert done + [] == done;
      var b := Built(done, []);
      assert b[..|b| - 1] == Join(done);
    }
  }

  lemma ReadAll(n: string, b: string, lastDash: bool, done: seq<string>, cur: string)
    requires ReadSoFar(n, |n|, b, lastDash, done, cur)
    ensures TrimDashes(b) == Join(Words(n)) && (Words(n) == [] <==> Join(Words(n)) == [])
  {
    assert n[|n|..] == [];
    BuiltTrims(done, cur);
    WordsAreWords(n, []);
    if Words(n) != [] { JoinEnds(Words(n)); }
  }

  // ---- what a channel name looks like ----

  /** 1 to 100 characters of [a-z0-9_-], no dash at either end, no two dashes in a row. */
  ghost predicate IsNormal(s: string) {
    && 1 <= |s| <= 100
    && NameChars(s)
    && s[0] != '-' && s[|s| - 1] != '-'
    && NoDoubleDash(s)
  }

  ghost predicate NameChars(s: string) {
    forall i :: 0 <= i < |s| ==> 'a' <= s[i] <= 'z' || '0' <= s[i] <= '9' || s[i] == '_' || s[i] == '-'
  }

  ghost predicate NoDoubleDash(s: string) {
    forall i, j :: 0 <= i < j < |s| && j == i + 1 && s[i] == '-' ==> s[j] != '-'
  }

  lemma {:induction false} WordsAreWords(s: string, cur: string)
    requires IsRun(cur)
    ensures AllWords(WordsFrom(s, cur))
    ensures |Join(WordsFrom(s, cur))| <= |cur| + |s|
    ensures WordsFrom(s, cur) == [] <==> cur == [] && forall c <- s :: !IsWord(c)
    decreases |s|
  {
    if s != [] {
      assert s == [s[0]] + s[1..];
      if IsWord(s[0]) {
        WordsAreWords(s[1..], cur + [s[0]]);
      } else if IsSeparator(s[0]) {
        WordsAreWords(s[1..], []);
        var rest := WordsFrom(s[1..], []);
        assert WordsFrom(s, cur) == (if cur == [] then rest else [cur] + rest);
        assert ([cur] + rest)[1..] == rest;
      } else {
        WordsAreWords(s[1..], cur);
      }
    }
  }

  lemma {:induction false} JoinIsNormal(words: seq<string>)
    requires AllWords(words) && words != []
    ensures NameChars(Join(words)) && NoDoubleDash(Join(words))
  {
    if |words| > 1 {
      JoinIsNormal(words[1..]);
      JoinEnds(words[1..]);
      JoinEnds([words[0]]);
      var s, t, w := Join(words), Join(words[1..]), words[0];
      assert s == w + ['-'] + t;
      forall i, j | 0 <= i < j < |s| && j == i + 1 && s[i] == '-' ensures s[j] != '-' {
        if i > |w| {
          assert t[i - |w| - 1] == '-' && t[j - |w| - 1] == s[j];
        }
      }
    }
  }

  /** Every accepted name is in normal form. */
  lemma NamesAreNormal(input: string, lower: char -> char)
    ensures var r := ChannelName(input, lower); r.Success? ==> IsNormal(r.value)
  {
    var n := TrimSpace(input);
    var words := Words(Lowered(n, lower));
    WordsAreWords(Lowered(n, lower), []);
    if words != [] {
      JoinEnds(words);
      JoinIsNormal(words);
    }
  }

  /** A name is refused exactly when the trimmed input has a bad length or no word character. */
  lemma RefusedIff(input: string, lower: char -> char)
    ensures var n := TrimSpace(input);
      ChannelName(input, lower).Failure? <==>
        !(1 <= |n| <= 100) || forall c <- Lowered(n, lower) :: !('a' <= c <= 'z' || '0' <= c <= '9' || c == '_')
  {
    WordsAreWords(Lowered(TrimSpace(input), lower), []);
  }

  lemma TailIsFine(s: string)
    requires NameChars(s) && NoDoubleDash(s) && s != [] && s[|s| - 1] != '-'
    ensures NameChars(s[1..]) && NoDoubleDash(s[1..]) && IsNameChar(s[0])
    ensures s[0] == '-' ==> |s| > 1 && s[1] != '-'
  {
    assert forall i, j :: 0 <= i < j < |s[1..]| ==> s[1..][i] == s[i + 1] && s[1..][j] == s[j + 1];
  }

  lemma {:induction false} NormalSplits(s: string, cur: string)
    requires NameChars(s) && NoDoubleDash(s) && (s != [] ==> s[|s| - 1] != '-')
    requires IsRun(cur) && (cur == [] ==> s != [] && s[0] != '-')
    ensures WordsFrom(s, cur) != [] && Join(WordsFrom(s, cur)) == cur + s
    decreases |s|
  {
    if s != [] {
      TailIsFine(s);
      hide NoDoubleDash, NameChars, Join;
      if s[0] == '-' {
        NormalSplits(s[1..], []);
        JoinCons(cur, WordsFrom(s[1..], []));
        assert cur + s == cur + ['-'] + s[1..];
        assert [] + s[1..] == s[1..];
      } else {
        NormalSplits(s[1..], cur + [s[0]]);
        assert cur + [s[0]] + s[1..] == cur + s;
      }
    } else {
      assert cur + s == cur;
    }
  }

  /** Sanitizing changes nothing exactly on names in normal form; in particular it is idempotent. */
  lemma FixedPointIff(s: string, lower: char -> char)
    requires IsLower(lower)
    ensures ChannelName(s, lower) == Success(s) <==> IsNormal(s)
  {
    NamesAreNormal(s, lower);
    if IsNormal(s) {
      assert TrimSpace(s) == s;
      assert Lowered(s, lower) == s;
      NormalSplits(s, []);
      assert [] + s == s;
    }
  }

  lemma SanitizingIsIdempotent(input: string, lower: char -> char)
    requires IsLower(lower) && ChannelName(input, lower).Success?
    ensures ChannelName(ChannelName(input, lower).value, lower) == ChannelName(input, lower)
  {
    NamesAreNormal(input, lower);
    FixedPointIff(ChannelName(input, lower).value, lower);
  }
}
