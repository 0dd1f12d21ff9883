/** Canonical attribute keys (app/services/canonical_fields.py). Letter case is folded for A to Z. */
module AttrKeys {
  function LowerChar(c: char): char {
    if 'A' <= c <= 'Z' then (c as int + 32) as char else c
  }

  function Lower(s: string): (r: string)
    ensures |r| == |s|
  {
    seq(|s|, i requires 0 <= i < |s| => LowerChar(s[i]))
  }

  predicate IsSpace(c: char) {
    c == ' ' || '\t' <= c <= '\r'
  }

  /** Drop leading and trailing characters of a kind. */
  function TrimLeft(s: string, drop: char -> bool): string {
    if s != [] && drop(s[0]) then TrimLeft(s[1..], drop) else s
  }

  function TrimRight(s: string, drop: char -> bool): string {
    if s != [] && drop(s[|s| - 1]) then TrimRight(s[..|s| - 1], drop) else s
  }

  function Trim(s: string, drop: char -> bool): string {
    TrimRight(TrimLeft(s, drop), drop)
  }

  function Strip(s: string): string {
    Trim(s, IsSpace)
  }

  lemma {:induction false} TrimLeftMeaning(s: string, drop: char -> bool) returns (cut: string)
    ensures s == cut + TrimLeft(s, drop) && forall i :: 0 <= i < |cut| ==> drop(cut[i])
    ensures TrimLeft(s, drop) != "" ==> !drop(TrimLeft(s, drop)[0])
  {
    cut := "";
    if s != "" && drop(s[0]) {
      var more := TrimLeftMeaning(s[1..], drop);
      cut := [s[0]] + more;
    }
  }

  lemma {:induction false} TrimRightMeaning(s: string, drop: char -> bool) returns (cut: string)
    ensures s == TrimRight(s, drop) + cut && forall i :: 0 <= i < |cut| ==> drop(cut[i])
    ensures TrimRight(s, drop) != "" ==> !drop(TrimRight(s, drop)[|TrimRight(s, drop)| - 1])
  {
    cut := "";
    if s != "" && drop(s[|s| - 1]) {
      var more := TrimRightMeaning(s[..|s| - 1], drop);
      cut := more + [s[|s| - 1]];
    }
  }

  /** Trimming cuts characters of the kind off both ends, and leaves none there. */
  lemma TrimMeaning(s: string, drop: char -> bool) returns (front: string, back: string)
    ensures s == front + Trim(s, drop) + back
    ensures forall i :: 0 <= i < |front| ==> drop(front[i])
    ensures forall i :: 0 <= i < |back| ==> drop(back[i])
    ensures Trim(s, drop) != "" ==> !drop(Trim(s, drop)[0]) && !drop(Trim(s, drop)[|Trim(s, drop)| - 1])
  {
    front := TrimLeftMeaning(s, drop);
    var rest := TrimLeft(s, drop);
    back := TrimRightMeaning(rest, drop);
    assert Trim(s, drop) != "" ==> Trim(s, drop)[0] == rest[0];
  }

  /** The six characters of white space. */
  lemma SpacesAre(c: char)
    ensures IsSpace(c) <==> c as int in {9, 10, 11, 12, 13, 32}
  {
  }

  /** Capital letters become the small letters of the same place in the alphabet; nothing else changes. */
  lemma LowerLetters(c: char, i: nat)
    requires i < 26
    ensures c == "ABCDEFGHIJKLMNOPQRSTUVWXYZ"[i] ==> LowerChar(c) == "abcdefghijklmnopqrstuvwxyz"[i]
    ensures c !in "ABCDEFGHIJKLMNOPQRSTUVWXYZ" ==> LowerChar(c) == c
  {
    if 'A' <= c <= 'Z' {
      assert "ABCDEFGHIJKLMNOPQRSTUVWXYZ"[c as int - 65] == c;
    }
  }

  predicate IsKeyChar(c: char) {
    'a' <= c <= 'z' || '0' <= c <= '9'
  }

  predicate IsUnderscore(c: char) {
    c == '_'
  }

  /** Replace every run of other characters by one underscore. `inRun` says the character before belonged to a run. */
  function Squash(s: string, inRun: bool): string {
    if s == [] then []
    else if IsKeyChar(s[0]) then [s[0]] + Squash(s[1..], false)
    else if inRun then Squash(s[1..], true)
    else ['_'] + Squash(s[1..], true)
  }

  /** The key of a text that has been stripped and lowered. */
  function KeyOf(text: string): string {
    Trim(Squash(text, false), IsUnderscore)
  }

  function CanonicalKey(value: string): string {
    KeyOf(Lower(Strip(value)))
  }

  /** Words of a-z and 0-9 joined by single underscores. */
  ghost predicate IsKey(k: string) {
    && (forall i :: 0 <= i < |k| ==> IsKeyChar(k[i]) || k[i] == '_')
    && (forall i :: 0 <= i < |k| - 1 ==> !(k[i] == '_' && k[i + 1] == '_'))
    && (k != [] ==> k[0] != '_' && k[|k| - 1] != '_')
  }

  /** As IsKey, without the condition on the ends. */
  ghost predicate Joined(k: string) {
    && (forall i :: 0 <= i < |k| ==> IsKeyChar(k[i]) || k[i] == '_')
    && (forall i :: 0 <= i < |k| - 1 ==> !(k[i] == '_' && k[i + 1] == '_'))
  }

  lemma {:induction false} SquashJoins(s: string, inRun: bool)
    ensures Joined(Squash(s, inRun))
    ensures inRun && Squash(s, inRun) != [] ==> Squash(s, inRun)[0] != '_'
  {
    if s != [] {
      SquashJoins(s[1..], !IsKeyChar(s[0]));
      var rest := Squash(s[1..], !IsKeyChar(s[0]));
      if IsKeyChar(s[0]) {
        assert Squash(s, inRun) == [s[0]] + rest;
      } else if !inRun {
        assert Squash(s, inRun) == ['_'] + rest;
      }
    }
  }

  lemma {:induction false} TrimLeftJoined(k: string)
    requires Joined(k)
    ensures Joined(TrimLeft(k, IsUnderscore))
    ensures TrimLeft(k, IsUnderscore) != [] ==> TrimLeft(k, IsUnderscore)[0] != '_'
  {
    if k != [] && IsUnderscore(k[0]) {
      TrimLeftJoined(k[1..]);
    }
  }

  lemma {:induction false} TrimRightJoined(k: string)
    requires Joined(k) && (k != [] ==> k[0] != '_')
    ensures IsKey(TrimRight(k, IsUnderscore))
  {
    if k != [] && IsUnderscore(k[|k| - 1]) {
      TrimRightJoined(k[..|k| - 1]);
    }
  }

  /** Whatever the text, and so whatever the lowering made of it, the result is a key. */
  lemma KeyOfIsKey(text: string)
    ensures IsKey(KeyOf(text))
  {
    SquashJoins(text, false);
    TrimLeftJoined(Squash(text, false));
    TrimRightJoined(TrimLeft(Squash(text, false), IsUnderscore));
  }

  lemma {:induction false} SquashFixesKeys(k: string, inRun: bool)
    requires Joined(k) && (inRun && k != [] ==> k[0] != '_')
    ensures Squash(k, inRun) == k
  {
    if k != [] {
      SquashFixesKeys(k[1..], !IsKeyChar(k[0]));
      assert k == [k[0]] + k[1..];
    }
  }

  lemma LowerFixesKeys(k: string)
    requires IsKey(k)
    ensures Lower(k) == k && Strip(k) == k
  {
    if k != [] {
      assert !IsSpace(k[0]) && !IsSpace(k[|k| - 1]);
    }
  }

  lemma KeysAreFixed(k: string)
    requires IsKey(k)
    ensures CanonicalKey(k) == k
  {
    LowerFixesKeys(k);
    SquashFixesKeys(k, false);
  }

  // ----- Which key a text has -----

  lemma KeyCharsAre(c: char)
    ensures IsKeyChar(c) <==> 48 <= c as int <= 57 || 97 <= c as int <= 122
  {
  }

  /** The words of a text: its runs of key characters. */
  ghost function Words(s: string): seq<string> {
    if s == "" then []
    else if !IsKeyChar(s[0]) then Words(s[1..])
    else if |s| == 1 || !IsKeyChar(s[1]) then [[s[0]]] + Words(s[1..])
    else Prepended(s[0], Words(s[1..]))
  }

  /** The first word grows by a letter in front. */
  ghost function Prepended(c: char, words: seq<string>): seq<string> {
    if words == [] then [[c]] else [[c] + words[0]] + words[1..]
  }

  ghost function JoinedBy(words: seq<string>): string {
    if words == [] then "" else if |words| == 1 then words[0] else words[0] + "_" + JoinedBy(words[1..])
  }

  ghost predicate EndsOpen(s: string) {
    s != "" && !IsKeyChar(s[|s| - 1])
  }

  ghost predicate EndsInKey(w: string) {
    w != "" && IsKeyChar(w[|w| - 1])
  }

  ghost predicate AreWords(words: seq<string>) {
    forall i :: 0 <= i < |words| ==> EndsInKey(words[i])
  }

  lemma PrependedAreWords(c: char, words: seq<string>)
    requires IsKeyChar(c) && AreWords(words)
    ensures AreWords(Prepended(c, words)) && AreWords([[c]] + words)
  {
    if words != [] {
      assert EndsInKey(words[0]);
      assert EndsInKey([c] + words[0]);
    }
    assert EndsInKey([c]);
  }

  lemma {:induction false} WordsNotBlank(s: string)
    ensures AreWords(Words(s))
    ensures s != "" && IsKeyChar(s[0]) ==> Words(s) != []
    ensures s != "" && Words(s) == [] ==> EndsOpen(s)
  {
    if s != "" {
      WordsNotBlank(s[1..]);
      if IsKeyChar(s[0]) {
        PrependedAreWords(s[0], Words(s[1..]));
      }
    }
  }

  lemma {:induction false} JoinedEnds(words: seq<string>)
    requires words != [] && AreWords(words)
    ensures EndsInKey(JoinedBy(words))
  {
    assert EndsInKey(words[0]);
    if |words| > 1 {
      JoinedEnds(words[1..]);
    }
  }

  lemma TrimKeepsKey(joined: string)
    requires joined == "" || EndsInKey(joined)
    ensures TrimRight(joined, IsUnderscore) == joined && TrimRight(joined + "_", IsUnderscore) == joined
  {
    assert (joined + "_")[..|joined|] == joined;
  }

  lemma TrimFront(rest: string)
    requires rest != "" ==> rest[0] != '_'
    ensures TrimLeft(rest, IsUnderscore) == rest && TrimLeft("_" + rest, IsUnderscore) == rest
  {
    assert ("_" + rest)[1..] == rest;
  }

  lemma JoinedPrepended(c: char, words: seq<string>)
    requires words != []
    ensures JoinedBy(Prepended(c, words)) == [c] + JoinedBy(words)
  {
    if |words| > 1 {
      assert Prepended(c, words)[1..] == words[1..];
    }
  }

  lemma JoinedFront(c: char, words: seq<string>)
    ensures JoinedBy([[c]] + words) == if words == [] then [c] else [c] + "_" + JoinedBy(words)
  {
    assert ([[c]] + words)[1..] == words;
  }

  lemma SquashAfterKey(t: string)
    ensures Squash(t, false) == (if t != "" && !IsKeyChar(t[0]) then "_" else "") + Squash(t, true)
  {
  }

  lemma {:induction false} SquashIsWords(s: string)
    ensures Squash(s, true) == JoinedBy(Words(s)) + if EndsOpen(s) && Words(s) != [] then "_" else ""
  {
    if s != "" {
      var t := s[1..];
      SquashIsWords(t);
      SquashAfterKey(t);
      WordsNotBlank(t);
      if IsKeyChar(s[0]) {
        if t != "" && IsKeyChar(t[0]) {
          JoinedPrepended(s[0], Words(t));
        } else {
          JoinedFront(s[0], Words(t));
          assert Words(s) == [[s[0]]] + Words(t);
        }
      }
    }
  }

  /** The key of a text: its words, lowered, joined by single underscores. */
  lemma KeyIsWords(value: string)
    ensures CanonicalKey(value) == JoinedBy(Words(Lower(Strip(value))))
  {
    KeyOfIsWords(Lower(Strip(value)));
  }

  lemma KeyOfIsWords(s: string)
    ensures KeyOf(s) == JoinedBy(Words(s))
  {
    SquashIsWords(s);
    SquashAfterKey(s);
    SquashJoins(s, true);
    WordsNotBlank(s);
    if Words(s) != [] {
      JoinedEnds(Words(s));
    }
    TrimFront(Squash(s, true));
    TrimKeepsKey(JoinedBy(Words(s)));
  }

  /** Canonicalising twice is canonicalising once, for every string. */
  lemma CanonicalKeyIdempotent(value: string)
    ensures IsKey(CanonicalKey(value)) && CanonicalKey(CanonicalKey(value)) == CanonicalKey(value)
  {
    KeyOfIsKey(Lower(Strip(value)));
    KeysAreFixed(CanonicalKey(value));
  }

  /** The keys are exactly the strings canonicalising leaves alone. */
  lemma KeysAreTheFixedStrings(k: string)
    ensures IsKey(k) <==> CanonicalKey(k) == k
  {
    CanonicalKeyIdempotent(k);
    if IsKey(k) {
      KeysAreFixed(k);
    }
  }
}
