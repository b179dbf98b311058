/** The alias code of the shell (os-pa1/pa1.c) as it works: values are buffers that strtok cuts with
    terminators and a loop mends, and commands are expanded inside the array of token pointers. */
module AliasShell {
  import opened Common
  import opened AliasModel

  /** A string from malloc: what a slot of the token array points at. */
  class Token {
    const text: string

    constructor (text: string)
      ensures this.text == text
    {
      this.text := text;
    }
  }

  /** `v` still holds the value `s`, up to blanks that strtok has overwritten before `pos`. */
  ghost predicate Cut(v: array<char>, s: string, pos: nat)
    reads v
  {
    && v.Length == |s| && pos <= |s| && '\0' !in s
    && (forall k :: 0 <= k < pos ==> v[k] == s[k] || (v[k] == '\0' && s[k] == ' '))
    && (forall k :: pos <= k < |s| ==> v[k] == s[k])
  }

  /** One call of strtok on the blank: the next word is `v[start..end]`, `None` at the end of the value. */
  method Strtok(v: array<char>, from: nat, ghost s: string) returns (word: Option<string>, next: nat)
    requires Cut(v, s, from)
    modifies v
    ensures Cut(v, s, next)
    ensures word.None? ==> Words(s[from..]) == []
    ensures word.Some? ==> from < next && Words(s[from..]) == [word.value] + Words(s[next..])
  {
    hide Words, Letters;
    var start := from;
    while start < v.Length && v[start] == ' '
      invariant Cut(v, s, from) && from <= start <= v.Length && Words(s[from..]) == Words(s[start..])
    {
      SkipBlank(s, start);
      start := start + 1;
    }
    if start == v.Length {
      NoWords(s);
      return None, start;
    }
    var end := start + 1;
    while end < v.Length && v[end] != ' '
      invariant Cut(v, s, from) && start < end <= v.Length && forall k :: start <= k < end ==> s[k] != ' '
    {
      end := end + 1;
    }
    TakeWord(s, start, end);
    assert v[start..end] == s[start..end];
    word, next := Some(v[start..end]), end;
    if end < v.Length {
      SkipBlank(s, end);
      v[end] := '\0';
      next := end + 1;
    }
  }

  /** The loop after the last strtok: terminators become blanks again. */
  method Mend(v: array<char>, ghost s: string)
    requires Cut(v, s, |s|)
    modifies v
    ensures v[..] == s
  {
    for j := 0 to v.Length
      invariant forall k :: 0 <= k < j ==> v[k] == s[k]
      invariant forall k :: j <= k < |s| ==> v[k] == s[k] || (v[k] == '\0' && s[k] == ' ')
    {
      assert s[j] in s;
      v[j] := if v[j] == '\0' then ' ' else v[j];
    }
  }

  /** get_value_wordCnt: counts the words of a value and leaves the value as it was. */
  method ValueWordCount(v: array<char>) returns (count: nat)
    requires '\0' !in v[..]
    modifies v
    ensures v[..] == old(v[..]) && count == |Words(v[..])|
  {
    hide Words;
    ghost var s := v[..];
    count := 0;
    assert s[0..] == s;
    var word, pos := Strtok(v, 0, s);
    while word.Some?
      invariant Cut(v, s, pos)
      invariant word.Some? ==> count + 1 + |Words(s[pos..])| == |Words(s)|
      invariant word.None? ==> count == |Words(s)|
      decreases word.Some?, |s| - pos
    {
      count := count + 1;
      word, pos := Strtok(v, pos, s);
    }
    Mend(v, s);
  }

  /** The tail behind token `i` moved by `count - 1` slots, as a shift with room for the new words would. */
  ghost predicate Shifted(before: seq<Token?>, after: seq<Token?>, nr: nat, i: nat, count: nat)
    requires i < nr && 0 < count && nr + count <= |before| == |after|
  {
    && after[..i + 1] == before[..i + 1]
    && after[i + count..nr + count - 1] == before[i + 1..nr]
    && after[nr + count - 1] == null
    && after[nr + count..] == before[nr + count..]
  }

  /** What the loop does for a value of no words: the last token is smeared over all the slots from `i` on. */
  ghost predicate Smeared(before: seq<Token?>, after: seq<Token?>, nr: nat, i: nat)
    requires i < nr <= |before| == |after|
  {
    && after[..i] == before[..i]
    && (forall k :: i <= k < nr - 1 ==> after[k] == before[nr - 1])
    && after[nr - 1] == null
    && after[nr..] == before[nr..]
  }

  lemma SlotBySlot(before: seq<Token?>, after: seq<Token?>, nr: nat, i: nat, count: nat)
    requires i < nr && nr + count <= |before| == |after| && after[nr + count - 1] == null
    requires forall x :: 0 <= x < i + count || nr + count <= x < |after| ==> after[x] == before[x]
    requires count > 0 ==> forall x :: i + count <= x < nr + count - 1 ==> after[x] == before[x - count + 1]
    requires count == 0 ==> forall x :: i <= x < nr - 1 ==> after[x] == before[nr - 1]
    ensures count > 0 ==> Shifted(before, after, nr, i, count)
    ensures count == 0 ==> Smeared(before, after, nr, i)
  {
  }

  /** space_back_wordCnt. */
  method SpaceBack(tokens: array<Token?>, nr: nat, i: nat, count: nat)
    requires i < nr && nr + count <= tokens.Length
    modifies tokens
    ensures count > 0 ==> Shifted(old(tokens[..]), tokens[..], nr, i, count)
    ensures count == 0 ==> Smeared(old(tokens[..]), tokens[..], nr, i)
  {
    hide Shifted, Smeared;
    var k: int := nr + count - 2;
    while k >= i + count
      invariant i + count - 1 <= k <= nr + count - 2
      invariant forall x :: 0 <= x < tokens.Length && !(k < x <= nr + count - 2) ==> tokens[x] == old(tokens[x])
      invariant count > 0 ==> forall x :: k < x <= nr + count - 2 ==> tokens[x] == old(tokens[x - count + 1])
      invariant count == 0 ==> forall x :: k < x <= nr - 2 ==> tokens[x] == old(tokens[nr - 1])
    {
      tokens[k] := tokens[k - count + 1];
      k := k - 1;
    }
    tokens[nr + count - 1] := null;
    SlotBySlot(old(tokens[..]), tokens[..], nr, i, count);
  }

  lemma Uncons(ws: seq<string>, k: nat, w: string, rest: seq<string>)
    requires k <= |ws| && ws[k..] == [w] + rest
    ensures k < |ws| && ws[k] == w && ws[k + 1..] == rest
  {
    assert |ws| - k == 1 + |rest| && ws[k..][0] == w && ws[k..][1..] == rest;
  }

  /** Strtok with the words of the whole value in view: the next one is word `k`. */
  method NextWord(v: array<char>, from: nat, ghost s: string, ghost ws: seq<string>, ghost k: nat)
    returns (word: Option<string>, next: nat)
    requires Cut(v, s, from) && k <= |ws| && ws[k..] == Words(s[from..])
    modifies v
    ensures Cut(v, s, next)
    ensures word.None? <==> k == |ws|
    ensures word.Some? ==> from < next && word.value == ws[k] && ws[k + 1..] == Words(s[next..])
  {
    hide Words;
    word, next := Strtok(v, from, s);
    if word.Some? {
      Uncons(ws, k, word.value, Words(s[next..]));
    }
  }

  lemma SameSlots(before: seq<Token?>, after: seq<Token?>, i: nat, n: nat)
    requires i + n <= |before| == |after|
    requires forall k :: 0 <= k < i || i + n <= k < |before| ==> after[k] == before[k]
    ensures after[..i] == before[..i] && after[i + n..] == before[i + n..]
  {
  }

  /** replace_token_with_alias: copies of the words of `v` go to the slots from `i` on. */
  method ReplaceToken(tokens: array<Token?>, i: nat, v: array<char>)
    requires '\0' !in v[..] && i + |Words(v[..])| <= tokens.Length
    modifies tokens, v
    ensures v[..] == old(v[..])
    ensures tokens[..i] == old(tokens[..i])
    ensures tokens[i + |Words(v[..])|..] == old(tokens[i + |Words(v[..])|..])
    ensures forall k :: i <= k < i + |Words(v[..])| ==>
      tokens[k] != null && fresh(tokens[k]) && tokens[k].text == Words(v[..])[k - i]
  {
    ghost var s := v[..];
    ghost var ws := Words(s);
    hide Words;
    assert s[0..] == s && ws[0..] == ws;
    var j := 0;
    var word, pos := NextWord(v, 0, s, ws, 0);
    while word.Some?
      invariant Cut(v, s, pos) && j <= |ws|
      invariant word.None? ==> j == |ws|
      invariant word.Some? ==> j < |ws| && word.value == ws[j] && ws[j + 1..] == Words(s[pos..])
      invariant forall k :: 0 <= k < i || i + |ws| <= k < tokens.Length ==> tokens[k] == old(tokens[k])
      invariant forall k :: i <= k < i + j ==>
        tokens[k] != null && fresh(tokens[k]) && tokens[k].text == ws[k - i]
      decreases word.Some?, |s| - pos
    {
      var tmp := new Token(word.value);
      tokens[i + j] := tmp;
      word, pos := NextWord(v, pos, s, ws, j + 1);
      j := j + 1;
    }
    Mend(v, s);
    SameSlots(old(tokens[..]), tokens[..], i, |ws|);
  }

  lemma SameTail(before: seq<Token?>, after: seq<Token?>, lo: nat, hi: nat)
    requires |after| == |before| && hi < |before| && lo <= hi + 1 && after[lo..] == before[lo..]
    ensures lo <= hi ==> after[lo..hi] == before[lo..hi]
    ensures forall k :: lo <= k < |after| ==> after[k] == before[k]
  {
    assert forall k :: lo <= k < |after| ==> after[lo..][k - lo] == after[k] && before[lo..][k - lo] == before[k];
  }

  ghost predicate Live(t: Token?, text: string, freed: set<Token>) {
    t != null && t !in freed && t.text == text
  }

  ghost function Texts(ts: seq<Token>): (r: seq<string>)
    ensures |r| == |ts| && forall k :: 0 <= k < |r| ==> r[k] == ts[k].text
  {
    if ts == [] then [] else Texts(ts[..|ts| - 1]) + [ts[|ts| - 1].text]
  }

  /** Between two rounds of the expansion loop: slots from `lo` on hold live tokens spelling `done`, then
      the untouched tokens `rest`, then the terminator. */
  ghost predicate Halfway(ts: seq<Token?>, lo: nat, done: seq<string>, rest: seq<Token>, freed: set<Token>) {
    var i := lo + |done|;
    && i + |rest| < |ts|
    && ts[i..i + |rest|] == rest && ts[i + |rest|] == null
    && NoDup(rest) && (forall k :: 0 <= k < |rest| ==> rest[k] !in freed)
    && (forall k :: lo <= k < i ==> Live(ts[k], done[k - lo], freed) && ts[k] !in rest)
  }

  lemma TailNoDup(rest: seq<Token>)
    requires NoDup(rest) && rest != []
    ensures NoDup(rest[1..]) && rest[0] !in rest[1..] && forall t :: t in rest[1..] ==> t in rest
  {
  }

  lemma KeepToken(ts: seq<Token?>, lo: nat, done: seq<string>, rest: seq<Token>, freed: set<Token>)
    requires Halfway(ts, lo, done, rest, freed) && rest != []
    ensures Halfway(ts, lo, done + [rest[0].text], rest[1..], freed)
    ensures lo + |done| + |rest| < |ts| && rest[0] !in freed
    ensures ts[lo + |done|] == rest[0] && ts[lo + |done| + |rest| - 1] == rest[|rest| - 1]
  {
    TailNoDup(rest);
    hide NoDup;
    var i := lo + |done|;
    assert ts[i] == ts[i..i + |rest|][0] && ts[i + |rest| - 1] == ts[i..i + |rest|][|rest| - 1];
    assert ts[i + 1..i + |rest|] == ts[i..i + |rest|][1..];
    var done' := done + [rest[0].text];
    forall k | lo <= k < i + 1
      ensures Live(ts[k], done'[k - lo], freed) && ts[k] !in rest[1..]
    {
      assert k < i ==> Live(ts[k], done[k - lo], freed) && ts[k] !in rest;
    }
  }

  /** The pure part of a matching round. */
  lemma Replaced(before: seq<Token?>, after: seq<Token?>, lo: nat, done: seq<string>, rest: seq<Token>,
                 freed: set<Token>, freed': set<Token>, ws: seq<string>)
    requires Halfway(before, lo, done, rest, freed) && rest != [] && lo + |done| + |rest| + |ws| <= |after| == |before|
    requires ws == [] ==> |rest| == 1 && freed' == freed
    requires ws != [] ==> freed' == freed + {rest[0]}
    requires var i := lo + |done|;
      && after[..i] == before[..i]
      && after[i + |ws|..i + |ws| + |rest| - 1] == before[i + 1..i + |rest|]
      && after[i + |ws| + |rest| - 1] == null
      && (forall k :: i <= k < i + |ws| ==> Live(after[k], ws[k - i], freed') && after[k] !in rest)
    ensures Halfway(after, lo, done + ws, rest[1..], freed')
  {
    var i := lo + |done|;
    assert rest[1..] == before[i..i + |rest|][1..] == before[i + 1..i + |rest|];
    assert forall k :: 0 <= k < i ==> after[k] == after[..i][k] == before[..i][k] == before[k];
    forall k | lo <= k < i + |ws|
      ensures Live(after[k], (done + ws)[k - lo], freed') && after[k] !in rest[1..]
    {
      if k < i {
        assert Live(before[k], done[k - lo], freed) && before[k] !in rest && rest[0] in rest;
      }
    }
    assert forall k :: 0 <= k < |rest| - 1 ==> rest[1..][k] == rest[k + 1] && rest[1..][k] != rest[0];
  }

  /** The loop has dealt with the first `p` tokens of the command and is about to look at slot `i`. */
  ghost predicate Going(keys: seq<string>, words: seq<seq<string>>, freed: set<Token>, ts: seq<Token?>, lo: nat,
                        orig: seq<Token>, p: nat, i: int, nr: nat)
    requires |keys| == |words|
  {
    && p <= |orig|
    && Halfway(ts, lo, Expand(keys, words, Texts(orig)[..p]), orig[p..], freed)
    && i == lo + |Expand(keys, words, Texts(orig)[..p])| && nr == i + |orig| - p
    && FitsUpTo(keys, words, Texts(orig), p, |ts| - lo)
    && forall k :: 0 <= k < p && k < |orig| - 1 ==> !Vanishes(keys, words, Texts(orig), k)
  }

  /** The loop is about to look at a freed token. */
  ghost predicate Stuck(keys: seq<string>, words: seq<seq<string>>, freed: set<Token>, ts: seq<Token?>, lo: nat,
                        orig: seq<Token>, i: int, nr: nat)
    requires |keys| == |words|
  {
    && 0 <= i < nr <= |ts| && ts[i] != null && ts[i] in freed
    && !Sound(keys, words, Texts(orig)) && !RunsOver(keys, words, Texts(orig), |ts| - lo)
  }

  lemma GoingFacts(keys: seq<string>, words: seq<seq<string>>, freed: set<Token>, ts: seq<Token?>, lo: nat,
                   orig: seq<Token>, p: nat, i: int, nr: nat)
    requires |keys| == |words| && Going(keys, words, freed, ts, lo, orig, p, i, nr)
    ensures lo <= i <= nr < |ts| && nr == i + |orig| - p
    ensures p < |orig| ==> ts[i] == orig[p] && orig[p] !in freed && ts[nr - 1] != null
  {
    if p < |orig| {
      KeepToken(ts, lo, Expand(keys, words, Texts(orig)[..p]), orig[p..], freed);
    }
  }

  /** What holds before every look of the loop at a slot, until it has read a freed token. */
  ghost predicate Looking(keys: seq<string>, words: seq<seq<string>>, freed: set<Token>, ts: seq<Token?>, lo: nat,
                          orig: seq<Token>, p: nat, i: int, nr: nat, dead: bool)
    requires |keys| == |words|
  {
    && lo <= i <= nr < |ts| && p <= |orig|
    && if dead then Stuck(keys, words, freed, ts, lo, orig, i, nr)
       else Going(keys, words, freed, ts, lo, orig, p, i, nr)
  }

  lemma PassBegins(keys: seq<string>, words: seq<seq<string>>, freed: set<Token>, ts: seq<Token?>, lo: nat,
                   orig: seq<Token>, nr: nat)
    requires |keys| == |words| && nr == lo + |orig| < |ts| && ts[lo..nr] == orig && ts[nr] == null
    requires NoDup(orig) && forall k :: 0 <= k < |orig| ==> orig[k] !in freed
    ensures Looking(keys, words, freed, ts, lo, orig, 0, lo, nr, false)
  {
    assert orig[0..] == orig && Texts(orig)[..0] == [];
    StartFits(keys, words, Texts(orig), |ts| - lo);
  }

  /** Slots from `lo` to `nr` hold live tokens spelling the expansion of the command, and the terminator follows. */
  ghost predicate Expanded(keys: seq<string>, words: seq<seq<string>>, freed: set<Token>, ts: seq<Token?>, lo: nat,
                           orig: seq<Token>, nr: nat)
    requires |keys| == |words|
  {
    var e := Expand(keys, words, Texts(orig));
    && nr == lo + |e| < |ts| && ts[nr] == null
    && (forall k :: lo <= k < nr ==> Live(ts[k], e[k - lo], freed))
  }

  /** Round `p` turns the first token of `rest` into the words `r`, behind the words `done`. */
  ghost predicate Round(keys: seq<string>, words: seq<seq<string>>, orig: seq<Token>, p: nat, done: seq<string>,
                        rest: seq<Token>, r: seq<string>)
    requires |keys| == |words|
  {
    && p < |orig| && done == Expand(keys, words, Texts(orig)[..p]) && rest == orig[p..]
    && r == Replacement(keys, words, Texts(orig)[p])
  }

  /** What a round does to the condition of the loop: it has room exactly when the next token has. */
  lemma PassFacts(keys: seq<string>, words: seq<seq<string>>, freed: set<Token>, ts: seq<Token?>, lo: nat,
                  orig: seq<Token>, p: nat, i: int, nr: nat)
    returns (done: seq<string>, rest: seq<Token>, r: seq<string>)
    requires |keys| == |words| && Going(keys, words, freed, ts, lo, orig, p, i, nr) && p < |orig|
    ensures Round(keys, words, orig, p, done, rest, r)
    ensures rest != [] && r == Replacement(keys, words, rest[0].text)
    ensures Halfway(ts, lo, done, rest, freed) && i == lo + |done| && nr == i + |rest|
    ensures var t := Texts(orig);
      if nr + |r| > |ts| then RunsOver(keys, words, t, |ts| - lo) && !Fits(keys, words, t, |ts| - lo)
      else FitsUpTo(keys, words, t, p + 1, |ts| - lo)
  {
    hide Find, Vanishes, NoDup, Live;
    var t := Texts(orig);
    OneMore(keys, words, t, p, |ts| - lo);
    done, rest, r := Expand(keys, words, t[..p]), orig[p..], Replacement(keys, words, t[p]);
    hide Halfway, Expand, Replacement, Find, FitsAt, FitsUpTo, Fits, RunsOver;
    StopsFull(keys, words, t, p, |ts| - lo);
  }

  lemma NextPass(keys: seq<string>, words: seq<seq<string>>, was: set<Token>, before: seq<Token?>, i: int, nr: nat,
                 done: seq<string>, rest: seq<Token>, r: seq<string>,
                 freed: set<Token>, ts: seq<Token?>, lo: nat, orig: seq<Token>, p: nat, j: int, m: nat)
    requires |keys| == |words| && Round(keys, words, orig, p, done, rest, r)
    requires |before| == |ts| && Going(keys, words, was, before, lo, orig, p, i, nr)
    requires lo <= j <= m < |ts| && FitsUpTo(keys, words, Texts(orig), p + 1, |ts| - lo)
    requires if r == [] && |rest| > 1 then j < m && ts[j] != null && ts[j] in freed
      else Halfway(ts, lo, done + r, rest[1..], freed) && j == lo + |done + r| && m == j + |rest| - 1
    ensures Looking(keys, words, freed, ts, lo, orig, p + 1, j, m, r == [] && |rest| > 1)
  {
    hide Halfway, Find, FitsAt, FitsUpTo, RunsOver;
    var t := Texts(orig);
    assert t[..p + 1][..p] == t[..p] && rest[1..] == orig[p + 1..];
    assert Vanishes(keys, words, t, p) <==> r == [];
    if Vanishes(keys, words, t, p) {
      StopsFreed(keys, words, t, p, |ts| - lo);
    }
  }

  lemma PassEnds(keys: seq<string>, words: seq<seq<string>>, freed: set<Token>, ts: seq<Token?>, lo: nat,
                 orig: seq<Token>, p: nat, nr: nat)
    requires |keys| == |words| && Going(keys, words, freed, ts, lo, orig, p, nr, nr)
    ensures Sound(keys, words, Texts(orig)) && Fits(keys, words, Texts(orig), |ts| - lo)
    ensures !RunsOver(keys, words, Texts(orig), |ts| - lo)
    ensures Expanded(keys, words, freed, ts, lo, orig, nr)
  {
    hide Expand, Find, Replacement, Vanishes, FitsAt, FitsUpTo, RunsOver, NoDup, Live;
    GoingFacts(keys, words, freed, ts, lo, orig, p, nr, nr);
    assert Texts(orig)[..p] == Texts(orig);
    NeverStops(keys, words, Texts(orig), |ts| - lo);
  }

  lemma LookingFacts(keys: seq<string>, words: seq<seq<string>>, freed: set<Token>, ts: seq<Token?>, lo: nat,
                     orig: seq<Token>, p: nat, i: int, nr: nat, dead: bool)
    requires |keys| == |words| && Looking(keys, words, freed, ts, lo, orig, p, i, nr, dead)
    ensures 0 <= i <= nr < |ts| && p <= |orig| && (dead ==> i < nr)
    ensures i < nr ==> ts[i] != null && (ts[i] in freed <==> dead) && (!dead ==> p < |orig|)
    ensures dead ==> !Sound(keys, words, Texts(orig)) && !RunsOver(keys, words, Texts(orig), |ts| - lo)
    ensures !dead ==> Going(keys, words, freed, ts, lo, orig, p, i, nr)
  {
    if !dead {
      GoingFacts(keys, words, freed, ts, lo, orig, p, i, nr);
    }
  }

  /** What moving the tail and filling the slots do to the array, one after the other. */
  lemma MovedAndFilled(before: seq<Token?>, moved: seq<Token?>, after: seq<Token?>, nr: nat, i: nat, count: nat)
    requires i < nr && nr + count <= |before| == |moved| == |after|
    requires if count > 0 then Shifted(before, moved, nr, i, count) else Smeared(before, moved, nr, i)
    requires after[..i] == moved[..i] && after[i + count..] == moved[i + count..]
    ensures after[..i] == before[..i]
    ensures count > 0 ==>
      && moved[i] == before[i] && after[nr + count - 1] == null
      && after[i + count..nr + count - 1] == before[i + 1..nr]
    ensures count == 0 ==> moved[i] == after[i] == if i < nr - 1 then before[nr - 1] else null
  {
    SameTail(moved, after, i + count, nr + count - 1);
    if count > 0 {
      assert moved[..i + 1][i] == before[..i + 1][i];
      assert moved[..i + 1][..i] == moved[..i] && before[..i + 1][..i] == before[..i];
    }
  }

  /** How the expansion of a command ends. */
  datatype Pass = Done | UsedFreed | Overrun

  class Shell {
    var keys: seq<string>
    var vals: seq<array<char>>
    const counts: array<nat>
    /** What was given back to malloc, so that a use after free can be stated. */
    var freed: set<Token>
    /** The words each value stands for. */
    ghost var words: seq<seq<string>>

    ghost predicate Valid(): (valid: bool)
      reads this, vals, counts
      ensures valid ==> |keys| == |vals| == |words| <= counts.Length
    {
      && |keys| == |vals| == |words| <= counts.Length == 33
      && NoDup(keys)
      && (forall k :: 0 <= k < |vals| ==> '\0' !in vals[k][..] && Words(vals[k][..]) == words[k])
      && (forall k :: 0 <= k < |vals| ==> counts[k] == |words[k]|)
    }

    constructor ()
      ensures Valid() && keys == [] && freed == {} && fresh(counts)
    {
      keys, vals, words, freed := [], [], [], {};
      counts := new nat[33];
    }

    /** find_alias_index. */
    method FindAliasIndex(text: string) returns (r: Option<nat>)
      requires Valid()
      ensures r == Find(keys, text)
    {
      var i := 0;
      while i < |keys|
        invariant i <= |keys| && text !in keys[..i] && Find(keys, text) == FindFrom(keys, text, i)
      {
        if keys[i] == text {
          return Some(i);
        }
        i := i + 1;
      }
      r := None;
    }

    /** `alias key args`: the arguments are joined by blanks into a new value, whose words get counted. It
        reports whether the count had a place: the C code writes behind v_wordCnt for a 34th key. */
    method DefineAlias(tokens: array<Token?>, nr: nat, ghost orig: seq<Token>) returns (ok: bool)
      requires Valid() && 2 <= nr == |orig| && nr <= tokens.Length && tokens[..nr] == orig
      requires forall k :: 0 <= k < nr ==> IsWord(orig[k].text)
      modifies this, counts
      ensures ok <==> orig[1].text in old(keys) || |old(keys)| < 33
      ensures ok ==> Valid()
      ensures keys == PutAt(old(keys), Slot(old(keys), orig[1].text), orig[1].text)
      ensures words == PutAt(old(words), Slot(old(keys), orig[1].text), Texts(orig)[2..])
      ensures var pos := Slot(old(keys), orig[1].text);
        && pos < |vals| == |keys| && vals[pos][..] == Join(Texts(orig)[2..])
        && vals == PutAt(old(vals), pos, vals[pos])
      ensures freed == old(freed) && forall v :: v in vals ==> v in old(vals) || fresh(v)
    {
      ghost var ts := Texts(orig);
      var key := tokens[1].text;
      assert tokens[1] == orig[1] && ts[2..2] == [] && ts[2..nr] == ts[2..];
      var found := FindAliasIndex(key);
      var value: string := "";
      for i := 2 to nr
        invariant value == Join(ts[2..i]) + if 2 < i < nr then " " else ""
      {
        assert tokens[i] == orig[i] && ts[2..i + 1][..i - 2] == ts[2..i];
        value := value + tokens[i].text;
        if i != nr - 1 {
          value := value + " ";
        }
      }
      ok := StoreValue(found, key, value, ts[2..]);
    }

    /** The second half of a definition: the value goes to its slot and its words get counted. */
    method StoreValue(found: Option<nat>, key: string, value: string, ghost args: seq<string>) returns (ok: bool)
      requires Valid() && found == Find(keys, key)
      requires value == Join(args) && forall k :: 0 <= k < |args| ==> IsWord(args[k])
      modifies this, counts
      ensures ok <==> key in old(keys) || |old(keys)| < 33
      ensures ok ==> Valid()
      ensures keys == PutAt(old(keys), Slot(old(keys), key), key)
      ensures words == PutAt(old(words), Slot(old(keys), key), args)
      ensures var pos := Slot(old(keys), key);
        && pos < |vals| == |keys| && vals[pos][..] == value && vals == PutAt(old(vals), pos, vals[pos])
      ensures freed == old(freed) && forall v :: v in vals ==> v in old(vals) || fresh(v)
    {
      hide Words, Join, IsWord, Letters;
      WordsOfJoin(args);
      JoinHasNoTerminator(args);
      var buffer := new char[|value|](k requires 0 <= k < |value| => value[k]);
      assert buffer[..] == value;
      var count := ValueWordCount(buffer);
      assert forall k :: 0 <= k < |vals| ==> vals[k][..] == old(vals[k][..]);
      var pos := |keys|;
      if found.Some? {
        pos := found.value;
        vals := vals[pos := buffer];
      } else {
        keys, vals := keys + [key], vals + [buffer];
      }
      words := PutAt(words, pos, args);
      if pos == counts.Length {
        return false;
      }
      counts[pos] := count;
      ok := true;
    }

    /** One matching token: the tail moves, the token is freed, the words of value `pos` go in. For a
        value of no words the smearing comes first, so it is the last token that gets freed. */
    method ExpandToken(tokens: array<Token?>, nr: nat, i: nat, pos: nat)
      requires Valid() && pos < |keys| && i < nr && nr + |words[pos]| <= tokens.Length
      modifies tokens, vals[pos], `freed
      ensures Valid()
      ensures tokens[..i] == old(tokens[..i])
      ensures words[pos] != [] ==>
        && freed == old(freed + if tokens[i] == null then {} else {tokens[i]})
        && (forall k :: i <= k < i + |words[pos]| ==> fresh(tokens[k]) && Live(tokens[k], words[pos][k - i], freed))
        && tokens[i + |words[pos]|..nr + |words[pos]| - 1] == old(tokens[i + 1..nr])
        && tokens[nr + |words[pos]| - 1] == null
      ensures words[pos] == [] && i == nr - 1 ==> tokens[i] == null && freed == old(freed)
      ensures words[pos] == [] && i < nr - 1 && old(tokens[nr - 1]) != null ==> tokens[i] != null && tokens[i] in freed
    {
      hide Words, NoDup, Shifted, Smeared;
      ghost var before := tokens[..];
      var count := counts[pos];
      assert count == |Words(vals[pos][..])|;
      SpaceBack(tokens, nr, i, count);
      ghost var moved := tokens[..];
      if tokens[i] != null {
        freed := freed + {tokens[i]};
      }
      ReplaceToken(tokens, i, vals[pos]);
      MovedAndFilled(before, moved, tokens[..], nr, i, count);
    }

    /** The matching round of the loop below. */
    method ExpandNext(tokens: array<Token?>, lo: nat, ghost done: seq<string>, ghost rest: seq<Token>,
                      i: nat, nr: nat, pos: nat)
      requires Valid() && Halfway(tokens[..], lo, done, rest, freed) && rest != []
      requires i == lo + |done| && nr == i + |rest| && pos < |keys| && nr + |words[pos]| <= tokens.Length
      modifies tokens, vals[pos], `freed
      ensures Valid() && tokens[..lo] == old(tokens[..lo])
      ensures words[pos] != [] || |rest| == 1 ==> Halfway(tokens[..], lo, done + words[pos], rest[1..], freed)
      ensures words[pos] == [] && |rest| > 1 ==> tokens[i] != null && tokens[i] in freed
    {
      hide *;
      ghost var before := tokens[..];
      KeepToken(before, lo, done, rest, freed);
      ExpandToken(tokens, nr, i, pos);
      assert tokens[..i][..lo] == tokens[..lo];
      if words[pos] != [] || |rest| == 1 {
        Replaced(before, tokens[..], lo, done, rest, old(freed), freed, words[pos]);
      }
    }

    method ExpandRound(tokens: array<Token?>, lo: nat, ghost done: seq<string>, ghost rest: seq<Token>, i: nat, nr: nat)
      returns (j: int, m: nat, over: bool)
      requires Valid() && Halfway(tokens[..], lo, done, rest, freed) && rest != [] && i == lo + |done|
        && nr == i + |rest|
      modifies tokens, vals, `freed
      ensures Valid() && tokens[..lo] == old(tokens[..lo])
      ensures over <==> nr + |Replacement(keys, words, rest[0].text)| > tokens.Length
      ensures !over ==> lo <= j <= m < tokens.Length
      ensures var r := Replacement(keys, words, rest[0].text);
        if over then true
        else if r == [] && |rest| > 1 then j < m && tokens[j] != null && tokens[j] in freed
        else Halfway(tokens[..], lo, done + r, rest[1..], freed) && j == lo + |done + r| && m == j + |rest| - 1
    {
      KeepToken(tokens[..], lo, done, rest, freed);
      hide Halfway, Find, Words;
      j, m, over := i, nr, false;
      var pos := FindAliasIndex(tokens[i].text);
      if pos.Some? {
        if nr + counts[pos.value] > tokens.Length {
          return j, m, true;
        }
        ExpandNext(tokens, lo, done, rest, i, nr, pos.value);
        m := m + counts[pos.value] - 1;
        j := j + counts[pos.value] - 1;
      }
      j := j + 1;
    }

    /** A round of the loop: it goes on as it should, or it is left with a freed token before it, or it has
        no room. */
    method ExpandAt(tokens: array<Token?>, lo: nat, ghost orig: seq<Token>, ghost p: nat, i: nat, nr: nat)
      returns (j: int, m: nat, over: bool, ghost dead: bool)
      requires Valid() && Going(keys, words, freed, tokens[..], lo, orig, p, i, nr) && p < |orig|
      modifies tokens, vals, `freed
      ensures Valid() && tokens[..lo] == old(tokens[..lo])
      ensures over ==> RunsOver(keys, words, Texts(orig), tokens.Length - lo)
      ensures over ==> !Fits(keys, words, Texts(orig), tokens.Length - lo)
      ensures !over ==> Looking(keys, words, freed, tokens[..], lo, orig, p + 1, j, m, dead)
    {
      hide *;
      ghost var was, before := freed, tokens[..];
      ghost var done, rest, r := PassFacts(keys, words, freed, before, lo, orig, p, i, nr);
      j, m, over := ExpandRound(tokens, lo, done, rest, i, nr);
      dead := r == [] && |rest| > 1;
      if !over {
        NextPass(keys, words, was, before, i, nr, done, rest, r, freed, tokens[..], lo, orig, p, j, m);
      }
    }

    /** The expansion loop over the tokens of one command, which start at slot `lo`. It reports whether
        every token it read was still allocated and every slot it wrote was in the array; the C code goes
        on regardless. */
    method ExpandTokens(tokens: array<Token?>, lo: nat, count: nat, ghost orig: seq<Token>)
      returns (nr: nat, pass: Pass)
      requires Valid() && count == |orig| && lo + count < tokens.Length
      requires tokens[lo..lo + count] == orig && tokens[lo + count] == null
      requires NoDup(orig) && forall k :: 0 <= k < |orig| ==> orig[k] !in freed
      modifies tokens, vals, `freed
      ensures Valid()
      ensures tokens[..lo] == old(tokens[..lo])
      ensures pass == Done <==> Sound(keys, words, Texts(orig)) && Fits(keys, words, Texts(orig), tokens.Length - lo)
      ensures pass == Overrun <==> RunsOver(keys, words, Texts(orig), tokens.Length - lo)
      ensures pass == Done ==> Expanded(keys, words, freed, tokens[..], lo, orig, nr)
    {
      hide *;
      ghost var p, dead := 0, false;
      var i: int := lo;
      nr := lo + count;
      PassBegins(keys, words, freed, tokens[..], lo, orig, nr);
      while i < nr
        invariant Valid() && tokens[..lo] == old(tokens[..lo])
        invariant Looking(keys, words, freed, tokens[..], lo, orig, p, i, nr, dead)
        decreases |orig| - p, !dead
      {
        LookingFacts(keys, words, freed, tokens[..], lo, orig, p, i, nr, dead);
        if tokens[i] in freed {
          return nr, UsedFreed;
        }
        var over: bool;
        i, nr, over, dead := ExpandAt(tokens, lo, orig, p, i, nr);
        if over {
          return nr, Overrun;
        }
        p := p + 1;
      }
      LookingFacts(keys, words, freed, tokens[..], lo, orig, p, i, nr, dead);
      PassEnds(keys, words, freed, tokens[..], lo, orig, p, nr);
      pass := Done;
    }
  }

  lemma EmptyAlias(z: string, a: string, room: nat)
    requires z != a && room > 2
    ensures !Sound([z], [[]], [z, a]) && !RunsOver([z], [[]], [z, a], room)
  {
    var t := [z, a];
    assert [z][0] == z;
    assert Vanishes([z], [[]], t, 0);
    StartFits([z], [[]], t, room);
    StopsFull([z], [[]], t, 0, room);
    OneMore([z], [[]], t, 0, room);
    assert t[..0] == [];
    StopsFreed([z], [[]], t, 0, room);
  }

  method DefineEmpty(z: string) returns (shell: Shell)
    requires IsWord(z)
    ensures fresh(shell) && fresh(shell.counts) && shell.Valid() && shell.keys == [z] && shell.words == [[]]
      && shell.freed == {}
    ensures fresh(shell.vals[0])
  {
    shell := new Shell();
    assert shell.vals == [];
    var name := new Token("alias");
    var key := new Token(z);
    var tokens := new Token?[][name, key];
    assert Texts([name, key])[2..] == [];
    hide Shell.Valid;
    var ok := shell.DefineAlias(tokens, 2, [name, key]);
    assert shell.keys == [z] && shell.words == [[]] && shell.vals[0] in shell.vals;
  }

  /** The command `z a` in a fresh token array. */
  method Command(z: string, a: string) returns (tokens: array<Token?>, ghost orig: seq<Token>)
    ensures fresh(tokens) && tokens.Length == 32 && |orig| == 2
    ensures tokens[0..2] == orig && tokens[2] == null
    ensures NoDup(orig) && Texts(orig) == [z, a]
  {
    var first := new Token(z);
    var second := new Token(a);
    tokens := new Token?[32](_ => null);
    tokens[0], tokens[1] := first, second;
    orig := [first, second];
  }

  /** `alias z`, then `z a`: the command that follows makes the loop read a token it has just freed. */
  method EmptyAliasBreaks(z: string, a: string) returns (pass: Pass)
    requires IsWord(z) && IsWord(a) && z != a
    ensures pass == UsedFreed
  {
    hide *;
    var shell := DefineEmpty(z);
    var tokens;
    ghost var orig, nr;
    tokens, orig := Command(z, a);
    EmptyAlias(z, a, 32);
    nr, pass := shell.ExpandTokens(tokens, 0, 2, orig);
  }
}
