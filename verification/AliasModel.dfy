/** Alias values as words (os-pa1): what strtok on blanks finds in a value, how a definition joins
    its words, and expansion as one flat map over the tokens of a command. */
module AliasModel {
  import opened Common

  // ---------------------------------------------------------------- words

  function Letters(s: string): (n: nat)
    ensures n <= |s| && (forall k :: 0 <= k < n ==> s[k] != ' ') && (n < |s| ==> s[n] == ' ')
  {
    if s == "" || s[0] == ' ' then 0 else 1 + Letters(s[1..])
  }

  /** The tokens strtok(s, " ") yields. */
  function Words(s: string): seq<string>
    decreases |s|
  {
    if s == "" then []
    else if s[0] == ' ' then Words(s[1..])
    else var b := Letters(s); [s[..b]] + Words(s[b..])
  }

  /** A token of a command line: not empty, no blank, no terminator inside. */
  predicate IsWord(w: string) {
    w != "" && forall k :: 0 <= k < |w| ==> w[k] != ' ' && w[k] != '\0'
  }

  function Join(ws: seq<string>): string {
    if ws == [] then ""
    else if |ws| == 1 then ws[0]
    else Join(ws[..|ws| - 1]) + " " + ws[|ws| - 1]
  }

  lemma Associates<T>(a: seq<T>, b: seq<T>, c: seq<T>)
    ensures a + b + c == a + (b + c)
  {
  }

  lemma WordsOfHead(s: string)
    requires s != "" && s[0] != ' '
    ensures Letters(s) > 0 && Words(s) == [s[..Letters(s)]] + Words(s[Letters(s)..])
  {
  }

  lemma {:induction false} LettersStop(s: string, t: string)
    requires t != "" && t[0] == ' '
    ensures Letters(s + t) == Letters(s)
  {
    if s != "" && s[0] != ' ' {
      LettersStop(s[1..], t);
      assert (s + t)[1..] == s[1..] + t;
    }
  }

  lemma {:induction false} WordsOfPair(s: string, t: string)
    ensures Words(s + " " + t) == Words(s) + Words(t)
    decreases |s|
  {
    var u := s + " " + t;
    if s == "" {
      assert u[1..] == t;
    } else if s[0] == ' ' {
      WordsOfPair(s[1..], t);
      assert u[1..] == s[1..] + " " + t;
    } else {
      WordsOfHead(s);
      WordsOfHead(u);
      hide Words, Letters;
      var b := Letters(s);
      LettersStop(s, " " + t);
      assert u == s + (" " + t) && u[..b] == s[..b] && u[b..] == s[b..] + " " + t;
      WordsOfPair(s[b..], t);
      Associates([s[..b]], Words(s[b..]), Words(t));
    }
  }

  lemma WordOfWord(w: string)
    requires IsWord(w)
    ensures Words(w) == [w]
  {
    assert Letters(w) == |w| && w[..|w|] == w && Words(w[|w|..]) == [];
  }

  /** A definition stores its words joined by single blanks; splitting gives back exactly those words. */
  lemma {:induction false} WordsOfJoin(ws: seq<string>)
    requires forall k :: 0 <= k < |ws| ==> IsWord(ws[k])
    ensures Words(Join(ws)) == ws
  {
    if |ws| == 1 {
      WordOfWord(ws[0]);
    } else if |ws| > 1 {
      var n := |ws| - 1;
      WordsOfJoin(ws[..n]);
      WordOfWord(ws[n]);
      WordsOfPair(Join(ws[..n]), ws[n]);
    }
  }

  /** The characters of all words together: `totLength`. */
  function TotalLength(ws: seq<string>): nat {
    if ws == [] then 0 else TotalLength(ws[..|ws| - 1]) + |ws[|ws| - 1]|
  }

  /** A value has one blank between words and none around them; so with its terminator it fills the memory
      asked for, totLength + nr_tokens - 3 + 1 for nr_tokens - 2 words, if and only if there is a word. */
  lemma {:induction false} ValueFillsMemory(ws: seq<string>)
    ensures ws != [] ==> |Join(ws)| + 1 == TotalLength(ws) + |ws|
    ensures |Join(ws)| + 1 <= TotalLength(ws) + (|ws| + 2) - 3 + 1 <==> ws != []
  {
    if |ws| > 1 {
      ValueFillsMemory(ws[..|ws| - 1]);
    } else if |ws| == 1 {
      assert ws[..0] == [];
    }
  }

  lemma {:induction false} JoinHasNoTerminator(ws: seq<string>)
    requires forall k :: 0 <= k < |ws| ==> IsWord(ws[k])
    ensures '\0' !in Join(ws)
  {
    if |ws| > 1 {
      JoinHasNoTerminator(ws[..|ws| - 1]);
    }
  }

  /** Every value splits into words; with WordsOfJoin, re-joining them loses only the extra blanks. */
  lemma {:induction false} WordsAreWords(s: string)
    requires '\0' !in s
    ensures forall k :: 0 <= k < |Words(s)| ==> IsWord(Words(s)[k])
    decreases |s|
  {
    if s != "" {
      WordsAreWords(s[if s[0] == ' ' then 1 else Letters(s)..]);
    }
  }

  lemma NoWords(s: string)
    ensures Words(s[|s|..]) == []
  {
  }

  lemma SkipBlank(s: string, k: nat)
    requires k < |s| && s[k] == ' '
    ensures Words(s[k..]) == Words(s[k + 1..])
  {
    assert s[k..][1..] == s[k + 1..];
  }

  lemma TakeWord(s: string, start: nat, end: nat)
    requires start < end <= |s| && (forall k :: start <= k < end ==> s[k] != ' ') && (end < |s| ==> s[end] == ' ')
    ensures Words(s[start..]) == [s[start..end]] + Words(s[end..])
  {
    var t, n := s[start..], end - start;
    assert t[..n] == s[start..end] && t[n..] == s[end..];
    assert forall k :: 0 <= k < |t| ==> t[k] == s[start + k];
    assert Letters(t) == n;
  }

  // ---------------------------------------------------------------- expansion

  function FindFrom(keys: seq<string>, w: string, k: nat): (r: Option<nat>)
    requires k <= |keys| && w !in keys[..k]
    ensures r.None? <==> w !in keys
    ensures r.Some? ==> r.value < |keys| && keys[r.value] == w && w !in keys[..r.value]
    decreases |keys| - k
  {
    if k == |keys| then None
    else if keys[k] == w then Some(k)
    else FindFrom(keys, w, k + 1)
  }

  /** find_alias_index. */
  function Find(keys: seq<string>, w: string): (r: Option<nat>)
    ensures r.None? <==> w !in keys
    ensures r.Some? ==> r.value < |keys| && keys[r.value] == w && w !in keys[..r.value]
  {
    FindFrom(keys, w, 0)
  }

  /** `alias key args`: the slot of the key, or a new one at the end. */
  function Slot(keys: seq<string>, key: string): (pos: nat)
    ensures pos <= |keys| && (pos < |keys| ==> keys[pos] == key) && (key !in keys ==> pos == |keys|)
  {
    match Find(keys, key)
    case None => |keys|
    case Some(k) => k
  }

  function PutAt<T>(s: seq<T>, pos: nat, x: T): (r: seq<T>)
    requires pos <= |s|
    ensures |r| == if pos < |s| then |s| else |s| + 1
    ensures r[pos] == x && forall k :: 0 <= k < |s| && k != pos ==> r[k] == s[k]
  {
    if pos < |s| then s[pos := x] else s + [x]
  }

  /** What one token of the command becomes. */
  function Replacement(keys: seq<string>, words: seq<seq<string>>, w: string): seq<string>
    requires |keys| == |words|
  {
    match Find(keys, w)
    case None => [w]
    case Some(k) => words[k]
  }

  lemma {:induction false} FindIs(keys: seq<string>, w: string, k: nat)
    requires NoDup(keys) && k < |keys| && keys[k] == w
    ensures Find(keys, w) == Some(k)
  {
    assert w in keys;
  }

  /** A definition changes what its key stands for, to the words given, and no other token. */
  lemma DefinitionTakesEffect(keys: seq<string>, words: seq<seq<string>>, key: string, args: seq<string>, w: string)
    requires |keys| == |words| && NoDup(keys)
    ensures var pos := Slot(keys, key);
            var keys', words' := PutAt(keys, pos, key), PutAt(words, pos, args);
            && NoDup(keys') && |keys'| == |words'|
            && Replacement(keys', words', w) == if w == key then args else Replacement(keys, words, w)
  {
    var pos := Slot(keys, key);
    var keys', words' := PutAt(keys, pos, key), PutAt(words, pos, args);
    assert NoDup(keys');
    if w == key {
      FindIs(keys', w, pos);
    } else if w in keys {
      FindIs(keys', w, Find(keys, w).value);
    }
  }

  /** One pass: every token is replaced once, and what it is replaced by is left alone. */
  function Expand(keys: seq<string>, words: seq<seq<string>>, t: seq<string>): seq<string>
    requires |keys| == |words|
  {
    if t == [] then []
    else Expand(keys, words, t[..|t| - 1]) + Replacement(keys, words, t[|t| - 1])
  }

  lemma ExpandOne(keys: seq<string>, words: seq<seq<string>>, t: seq<string>, w: string)
    requires |keys| == |words|
    ensures Expand(keys, words, t + [w]) == Expand(keys, words, t) + Replacement(keys, words, w)
  {
    hide Replacement;
    assert (t + [w])[..|t|] == t;
  }

  lemma {:induction false} ExpandAppend(keys: seq<string>, words: seq<seq<string>>, t: seq<string>, u: seq<string>)
    requires |keys| == |words|
    ensures Expand(keys, words, t + u) == Expand(keys, words, t) + Expand(keys, words, u)
  {
    if u == [] {
      assert t + u == t;
    } else {
      hide Expand, Replacement;
      var v, w := u[..|u| - 1], u[|u| - 1];
      assert u == v + [w] && t + u == t + v + [w];
      ExpandAppend(keys, words, t, v);
      ExpandOne(keys, words, t + v, w);
      ExpandOne(keys, words, v, w);
      Associates(Expand(keys, words, t), Expand(keys, words, v), Replacement(keys, words, w));
    }
  }

  /** The words standing for token `p` are found in the result as they are, inserted words included. */
  lemma InsertedWordsStay(keys: seq<string>, words: seq<seq<string>>, t: seq<string>, p: nat)
    requires |keys| == |words| && p < |t|
    ensures var a := |Expand(keys, words, t[..p])|;
            var r := Replacement(keys, words, t[p]);
            && a + |r| <= |Expand(keys, words, t)|
            && Expand(keys, words, t)[a..a + |r|] == r
  {
    ExpandAppend(keys, words, t[..p + 1], t[p + 1..]);
    assert t == t[..p + 1] + t[p + 1..] && t[..p + 1][..p] == t[..p];
  }

  /** With `p` tokens dealt with, the command and its terminator fit `room` slots counted from the first token. */
  ghost predicate FitsAt(keys: seq<string>, words: seq<seq<string>>, t: seq<string>, p: nat, room: int)
    requires |keys| == |words| && p <= |t|
  {
    |Expand(keys, words, t[..p])| + |t| - p < room
  }

  ghost predicate FitsUpTo(keys: seq<string>, words: seq<seq<string>>, t: seq<string>, p: nat, room: int)
    requires |keys| == |words| && p <= |t|
  {
    forall q :: 0 <= q <= p ==> FitsAt(keys, words, t, q, room)
  }

  /** The whole pass fits. */
  ghost predicate Fits(keys: seq<string>, words: seq<seq<string>>, t: seq<string>, room: int)
    requires |keys| == |words|
  {
    FitsUpTo(keys, words, t, |t|, room)
  }

  /** Token `p` names an alias of no words (`alias foo` with nothing behind it). */
  ghost predicate Vanishes(keys: seq<string>, words: seq<seq<string>>, t: seq<string>, p: nat)
    requires |keys| == |words| && p < |t|
  {
    Replacement(keys, words, t[p]) == []
  }

  /** No token vanishes in the middle: the condition under which the in-place pass is sound. */
  ghost predicate Sound(keys: seq<string>, words: seq<seq<string>>, t: seq<string>)
    requires |keys| == |words|
  {
    forall p :: 0 <= p < |t| - 1 ==> !Vanishes(keys, words, t, p)
  }

  ghost predicate OverAt(keys: seq<string>, words: seq<seq<string>>, t: seq<string>, p: nat, room: int)
    requires |keys| == |words| && p < |t|
  {
    !FitsAt(keys, words, t, p + 1, room) && forall k :: 0 <= k < p ==> !Vanishes(keys, words, t, k)
  }

  /** Some token takes the command past the array, and no token before it vanishes. */
  ghost predicate RunsOver(keys: seq<string>, words: seq<seq<string>>, t: seq<string>, room: int)
    requires |keys| == |words|
  {
    exists p :: 0 <= p < |t| && OverAt(keys, words, t, p, room)
  }

  lemma {:induction false} ExpandGrows(keys: seq<string>, words: seq<seq<string>>, t: seq<string>, p: nat)
    requires |keys| == |words| && (forall k :: 0 <= k < |words| ==> words[k] != []) && p <= |t|
    ensures |Expand(keys, words, t[..p])| + |t| - p <= |Expand(keys, words, t)|
    decreases |t| - p
  {
    if p < |t| {
      ExpandGrows(keys, words, t, p + 1);
      assert t[..p + 1][..p] == t[..p];
    } else {
      assert t[..p] == t;
    }
  }

  /** When no alias is empty, it is enough that the result and its terminator fit. */
  lemma FitsIffResultFits(keys: seq<string>, words: seq<seq<string>>, t: seq<string>, room: int)
    requires |keys| == |words| && forall k :: 0 <= k < |words| ==> words[k] != []
    ensures Fits(keys, words, t, room) <==> |Expand(keys, words, t)| < room
  {
    assert t[..|t|] == t && FitsAt(keys, words, t, |t|, room) == (|Expand(keys, words, t)| < room);
    forall p | 0 <= p <= |t| && |Expand(keys, words, t)| < room
      ensures FitsAt(keys, words, t, p, room)
    {
      ExpandGrows(keys, words, t, p);
    }
  }

  lemma OneMore(keys: seq<string>, words: seq<seq<string>>, t: seq<string>, p: nat, room: int)
    requires |keys| == |words| && p < |t|
    ensures Expand(keys, words, t[..p + 1]) == Expand(keys, words, t[..p]) + Replacement(keys, words, t[p])
    ensures FitsAt(keys, words, t, p + 1, room)
       <==> |Expand(keys, words, t[..p])| + |Replacement(keys, words, t[p])| + |t| - p - 1 < room
    ensures Find(keys, t[p]).None? ==> Replacement(keys, words, t[p]) == [t[p]]
    ensures Find(keys, t[p]).Some? ==> Replacement(keys, words, t[p]) == words[Find(keys, t[p]).value]
  {
    assert t[..p + 1][..p] == t[..p];
  }

  lemma StartFits(keys: seq<string>, words: seq<seq<string>>, t: seq<string>, room: int)
    requires |keys| == |words| && |t| < room
    ensures FitsUpTo(keys, words, t, 0, room)
  {
    assert t[..0] == [];
  }

  /** Token `p` is where a pass is stopped for want of room, if it is. */
  lemma StopsFull(keys: seq<string>, words: seq<seq<string>>, t: seq<string>, p: nat, room: int)
    requires |keys| == |words| && p < |t| && FitsUpTo(keys, words, t, p, room)
    requires forall k :: 0 <= k < p ==> !Vanishes(keys, words, t, k)
    ensures if FitsAt(keys, words, t, p + 1, room) then FitsUpTo(keys, words, t, p + 1, room)
      else RunsOver(keys, words, t, room) && !Fits(keys, words, t, room)
  {
    hide FitsAt, Vanishes;
    if !FitsAt(keys, words, t, p + 1, room) {
      assert OverAt(keys, words, t, p, room);
    }
  }

  /** A token that vanishes, with room up to it, is not where the pass runs out of room. */
  lemma StopsFreed(keys: seq<string>, words: seq<seq<string>>, t: seq<string>, p: nat, room: int)
    requires |keys| == |words| && p < |t| && FitsUpTo(keys, words, t, p + 1, room) && Vanishes(keys, words, t, p)
    ensures !RunsOver(keys, words, t, room)
  {
    hide FitsAt, Vanishes;
    forall q | 0 <= q < |t|
      ensures !OverAt(keys, words, t, q, room)
    {
      assert q <= p ==> FitsAt(keys, words, t, q + 1, room);
    }
  }

  lemma NeverStops(keys: seq<string>, words: seq<seq<string>>, t: seq<string>, room: int)
    requires |keys| == |words| && Fits(keys, words, t, room)
    ensures !RunsOver(keys, words, t, room)
  {
    hide FitsAt, Vanishes;
    forall q | 0 <= q < |t|
      ensures !OverAt(keys, words, t, q, room)
    {
      assert FitsAt(keys, words, t, q + 1, room);
    }
  }
}
