/** The special-case classifier of the comparison page: a file whose name,
    up to its first dot and lower-cased, contains one of a fixed list of
    trigger words gets a forced perfect score. */
module Classifier {

  /** The trigger words, in the order the page lists them. */
  const TRIGGERS: seq<string> := ["john_doe", "sukhwinder", "sukh", "winder"]

  /** Lower-casing of one character (ASCII letters only). */
  function LowerChar(c: char): (d: char)
    ensures !('A' <= d <= 'Z')
    ensures 'A' <= c <= 'Z' ==> 'a' <= d <= 'z' && d as int - 'a' as int == c as int - 'A' as int
    ensures !('A' <= c <= 'Z') ==> d == c
  {
    if 'A' <= c <= 'Z' then (c as int - 'A' as int + 'a' as int) as char else c
  }

  /** Lower-casing of a whole string, character by character. */
  function ToLower(s: string): (r: string)
    ensures |r| == |s|
    ensures forall i :: 0 <= i < |s| ==> r[i] == LowerChar(s[i])
  {
    if s == [] then [] else [LowerChar(s[0])] + ToLower(s[1..])
  }

  /** The first piece of `s.split(".")`: everything before the first dot,
      or all of `s` when it has no dot. */
  function BeforeFirstDot(s: string): (r: string)
    ensures r <= s
    ensures '.' !in r
    ensures |r| < |s| ==> s[|r|] == '.'
  {
    if s == [] then []
    else if s[0] == '.' then []
    else [s[0]] + BeforeFirstDot(s[1..])
  }

  /** `s.includes(t)`: `t` occurs somewhere in `s`. */
  predicate Contains(s: string, t: string)
    ensures t <= s ==> Contains(s, t)
    ensures Contains(s, t) ==> |t| <= |s|
  {
    t <= s || (s != [] && Contains(s[1..], t))
  }

  /** `subs.some(t => key.includes(t))`. */
  predicate ContainsAny(key: string, subs: seq<string>)
    ensures ContainsAny(key, subs) <==> exists k :: 0 <= k < |subs| && Contains(key, subs[k])
  {
    subs != [] && (Contains(key, subs[0]) || ContainsAny(key, subs[1..]))
  }

  /** The part of a file name the classifier looks at. */
  function Key(name: string): (k: string)
    ensures k == BeforeFirstDot(ToLower(name))
    ensures |k| <= |name| && '.' !in k && NoUpper(k)
  {
    LowerBeforeFirstDot(name);
    LowerHasNoUpper(BeforeFirstDot(name));
    ToLower(BeforeFirstDot(name))
  }

  /** `isSpecificPerson(file)`, on the file's name. */
  predicate IsSpecificPerson(name: string)
    ensures IsSpecificPerson(name) ==> |BeforeFirstDot(name)| >= 4
  {
    TriggersAtLeastFour();
    ContainsAny(Key(name), TRIGGERS)
  }

  /** Occurrence of `t` in `s` at position `i`. */
  predicate OccursAt(s: string, t: string, i: int)
  {
    0 <= i && i + |t| <= |s| && s[i..i + |t|] == t
  }

  /** `Contains` agrees with the positional definition of a substring. */
  lemma {:induction false} ContainsIff(s: string, t: string)
    ensures Contains(s, t) <==> exists i :: OccursAt(s, t, i)
  {
    if t <= s {
      assert OccursAt(s, t, 0);
    } else if s == [] {
      assert forall i :: !OccursAt(s, t, i);
    } else {
      ContainsIff(s[1..], t);
      assert !OccursAt(s, t, 0);
      forall i | 0 < i && OccursAt(s, t, i) ensures OccursAt(s[1..], t, i - 1) {
        assert s[1..][i - 1..i - 1 + |t|] == s[i..i + |t|];
      }
      forall i | OccursAt(s[1..], t, i) ensures OccursAt(s, t, i + 1) {
        assert s[1..][i..i + |t|] == s[i + 1..i + 1 + |t|];
      }
    }
  }

  /** The classifier's verdict, stated without recursion: some trigger word
      occurs at some position of the lower-cased text before the first dot. */
  lemma IsSpecificPersonIff(name: string)
    ensures IsSpecificPerson(name) <==>
      exists k, i :: 0 <= k < |TRIGGERS| && OccursAt(Key(name), TRIGGERS[k], i)
  {
    forall k | 0 <= k < |TRIGGERS| {
      ContainsIff(Key(name), TRIGGERS[k]);
    }
  }

  /** Lower-casing leaves dots where they are, so it commutes with cutting
      at the first dot. */
  lemma LowerBeforeFirstDot(s: string)
    ensures ToLower(BeforeFirstDot(s)) == BeforeFirstDot(ToLower(s))
  {
  }

  /** Two names that differ only in letter case get the same verdict. */
  lemma CaseInsensitive(a: string, b: string)
    requires ToLower(a) == ToLower(b)
    ensures IsSpecificPerson(a) <==> IsSpecificPerson(b)
  {
    LowerBeforeFirstDot(a);
    LowerBeforeFirstDot(b);
  }

  /** Only the text before the first dot is looked at: whatever follows a
      dot-free stem and a dot does not change the verdict. */
  lemma {:induction false} OnlyStemMatters(stem: string, rest: string)
    requires '.' !in stem
    ensures Key(stem + "." + rest) == Key(stem)
    ensures IsSpecificPerson(stem + "." + rest) <==> IsSpecificPerson(stem)
  {
    StemOfDotted(stem, rest);
  }

  lemma {:induction false} StemOfDotted(stem: string, rest: string)
    requires '.' !in stem
    ensures BeforeFirstDot(stem + "." + rest) == stem
  {
    if stem != [] {
      assert (stem + "." + rest)[1..] == stem[1..] + "." + rest;
      StemOfDotted(stem[1..], rest);
      assert [stem[0]] + stem[1..] == stem;
    }
  }

  /** No upper-case ASCII letter in `s`. */
  predicate NoUpper(s: string)
  {
    forall i :: 0 <= i < |s| ==> !('A' <= s[i] <= 'Z')
  }

  lemma LowerOfNoUpper(s: string)
    requires NoUpper(s)
    ensures ToLower(s) == s
  {
  }

  lemma LowerHasNoUpper(s: string)
    ensures NoUpper(ToLower(s))
  {
  }

  lemma BeforeFirstDotNoDot(s: string)
    requires '.' !in s
    ensures BeforeFirstDot(s) == s
  {
  }

  /** The verdict written out trigger by trigger. */
  lemma TriggerCases(key: string)
    ensures ContainsAny(key, TRIGGERS) <==>
      Contains(key, "john_doe") || Contains(key, "sukhwinder") ||
      Contains(key, "sukh") || Contains(key, "winder")
  {
    assert TRIGGERS[0] == "john_doe";
    assert TRIGGERS[1] == "sukhwinder";
    assert TRIGGERS[2] == "sukh";
    assert TRIGGERS[3] == "winder";
  }

  /** The shortest trigger word, "sukh", has four letters. */
  lemma TriggersAtLeastFour()
    ensures forall k :: 0 <= k < |TRIGGERS| ==> |TRIGGERS[k]| >= 4
  {
  }

  /** Every trigger word is lower-case and has no dot. */
  lemma TriggerWordPlain(k: nat)
    requires k < |TRIGGERS|
    ensures NoUpper(TRIGGERS[k]) && '.' !in TRIGGERS[k]
  {
  }

  /** A trigger word anywhere in a dot-free stem, surrounded by text in any
      letter case, fires, whatever follows the first dot. Trigger words in
      other letter cases follow with CaseInsensitive. */
  lemma MatchesAnywhereInStem(before: string, after: string, rest: string, k: nat)
    requires k < |TRIGGERS|
    requires '.' !in before && '.' !in after
    ensures IsSpecificPerson(before + TRIGGERS[k] + after + "." + rest)
  {
    var w := TRIGGERS[k];
    var stem := before + w + after;
    TriggerWordPlain(k);
    assert '.' !in stem;
    OnlyStemMatters(stem, rest);
    BeforeFirstDotNoDot(stem);
    var key := ToLower(stem);
    LowerOfNoUpper(w);
    assert key[|before|..|before| + |w|] == ToLower(w) by {
      forall j | 0 <= j < |w|
        ensures key[|before|..|before| + |w|][j] == ToLower(w)[j]
      {
        assert stem[|before| + j] == w[j];
      }
    }
    assert OccursAt(key, w, |before|);
    ContainsIff(key, w);
  }

  /** A word whose first letter does not occur in `s` is not in `s`. */
  lemma {:induction false} FirstLetterAbsent(s: string, t: string)
    requires t != [] && t[0] !in s
    ensures !Contains(s, t)
  {
    if s != [] {
      assert s[0] != t[0];
      FirstLetterAbsent(s[1..], t);
    }
  }

  /** "sukhwinder" contains "sukh", so it never decides a verdict: the list
      acts exactly like "john_doe", "sukh", "winder". */
  lemma RedundantTrigger(name: string)
    ensures IsSpecificPerson(name) <==>
      Contains(Key(name), "john_doe") || Contains(Key(name), "sukh") || Contains(Key(name), "winder")
  {
    var key := Key(name);
    TriggerCases(key);
    if Contains(key, "sukhwinder") {
      ContainsIff(key, "sukhwinder");
      var i :| OccursAt(key, "sukhwinder", i);
      assert key[i..i + 4] == "sukhwinder"[..4];
      assert OccursAt(key, "sukh", i);
      ContainsIff(key, "sukh");
    }
  }

  /** Keys without the letters j, s and w cannot contain a trigger. */
  lemma NoTrigger(key: string)
    requires 'j' !in key && 's' !in key && 'w' !in key
    ensures !ContainsAny(key, TRIGGERS)
  {
    TriggerCases(key);
    FirstLetterAbsent(key, "john_doe");
    FirstLetterAbsent(key, "sukhwinder");
    FirstLetterAbsent(key, "sukh");
    FirstLetterAbsent(key, "winder");
  }

  /** The key of a dot-free stem is its lower-case form `low`. */
  lemma KeyOfStem(stem: string, rest: string, low: string)
    requires '.' !in stem
    requires |low| == |stem| && forall i :: 0 <= i < |stem| ==> low[i] == LowerChar(stem[i])
    ensures Key(stem + "." + rest) == low
  {
    OnlyStemMatters(stem, rest);
    BeforeFirstDotNoDot(stem);
  }

  lemma ExampleUpperCase()
    ensures IsSpecificPerson("SUKH.jpg")
  {
    assert "SUKH" + "." + "jpg" == "SUKH.jpg";
    KeyOfStem("SUKH", "jpg", "sukh");
    TriggerCases("sukh");
  }

  lemma ExampleMixedCase()
    ensures IsSpecificPerson("Winder123.png")
  {
    assert "Winder123" + "." + "png" == "Winder123.png";
    KeyOfStem("Winder123", "png", "winder123");
    assert "winder" <= "winder123";
    TriggerCases("winder123");
  }

  lemma ExampleNoTrigger()
    ensures !IsSpecificPerson("vacation.png")
  {
    assert "vacation" + "." + "png" == "vacation.png";
    KeyOfStem("vacation", "png", "vacation");
    NoTrigger("vacation");
  }

  /** A trigger word after the first dot does not fire. */
  lemma ExampleTriggerAfterDot()
    ensures !IsSpecificPerson("photo.sukh.png")
  {
    assert "photo" + "." + "sukh.png" == "photo.sukh.png";
    KeyOfStem("photo", "sukh.png", "photo");
    NoTrigger("photo");
  }
}
