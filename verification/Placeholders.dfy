/**
Placeholder substitution. The code replaces one key after the other, in whatever order a map is
iterated, rescanning what earlier replacements put in; the reference below substitutes all
placeholders at once.
*/
module Placeholders {

  const LEFT := "${"
  const RIGHT := "}"

  /** Replaces every occurrence from left to right; what was put in is not looked at again. */
  function ReplaceAll(s: string, pattern: string, value: string): string
    requires pattern != ""
  {
    if s == "" then "" else
    if pattern <= s then value + ReplaceAll(s[|pattern|..], pattern, value)
    else s[..1] + ReplaceAll(s[1..], pattern, value)
  }

  /** What stands for a key in a pattern. */
  function Placeholder(key: string): (r: string)
    ensures r != "" && r[0] == '$'
  {
    LEFT + key + RIGHT
  }

  function ProcessVar(s: string, key: string, value: string): string
  {
    ReplaceAll(s, Placeholder(key), value)
  }

  /** The effect of processing keys in one particular order. */
  function ProcessEach(s: string, prefix: string, dict: map<string, string>, order: seq<string>): string
    requires forall key :: key in order ==> key in dict
  {
    if order == [] then s else
    var n := |order| - 1;
    ProcessVar(ProcessEach(s, prefix, dict, order[..n]), prefix + order[n], dict[order[n]])
  }

  // ---------- the reference: all placeholders at once ----------

  datatype Segment = Text(text: string) | Var(name: string)

  function Write(segments: seq<Segment>): string
  {
    if segments == [] then "" else
    (match segments[0] case Text(t) => t case Var(name) => LEFT + name + RIGHT) + Write(segments[1..])
  }

  /** A placeholder named by the prefix and one of the keys becomes that key's value; others stay. */
  function Substitute(segments: seq<Segment>, prefix: string, dict: map<string, string>, keys: set<string>):
    (r: seq<Segment>)
    requires keys <= dict.Keys
    ensures |r| == |segments|
  {
    seq(|segments|, i requires 0 <= i < |segments| =>
      var s := segments[i];
      if s.Var? && prefix <= s.name && s.name[|prefix|..] in keys then Text(dict[s.name[|prefix|..]]) else s)
  }

  predicate Plain(s: string)
  {
    '$' !in s
  }

  predicate PlainName(s: string)
  {
    '$' !in s && '}' !in s
  }

  ghost predicate Clean(segments: seq<Segment>)
  {
    forall s :: s in segments ==> if s.Text? then Plain(s.text) else PlainName(s.name)
  }

  ghost predicate CleanKeys(prefix: string, dict: map<string, string>)
  {
    forall key :: key in dict ==> PlainName(prefix + key)
  }

  /** No occurrence of `pattern` can begin inside `text`, whatever comes behind it. */
  predicate Inert(text: string, pattern: string)
  {
    forall i :: 0 <= i < |text| ==> !(pattern <= text[i..]) && !(text[i..] <= pattern)
  }

  /**
  No value contains the placeholder of another key, or ends with a beginning of it; except that a key that
  stands for its own placeholder does no harm.
  */
  ghost predicate Harmless(prefix: string, dict: map<string, string>)
  {
    forall a, k :: a in dict && k in dict && a != k && dict[k] != Placeholder(prefix + k) ==>
      Inert(dict[a], Placeholder(prefix + k))
  }

  /** In particular values without a dollar sign do no harm. */
  lemma PlainValuesAreHarmless(prefix: string, dict: map<string, string>)
    requires forall key :: key in dict ==> Plain(dict[key])
    ensures Harmless(prefix, dict)
  {
    forall a, k | a in dict && k in dict
      ensures Inert(dict[a], Placeholder(prefix + k))
    {
      PlainIsInert(dict[a], prefix + k);
    }
  }

  lemma PlainIsInert(text: string, key: string)
    requires Plain(text)
    ensures Inert(text, Placeholder(key))
  {
    forall i | 0 <= i < |text|
      ensures !(Placeholder(key) <= text[i..]) && !(text[i..] <= Placeholder(key))
    {
      assert text[i..][0] == text[i] != '$' == Placeholder(key)[0];
    }
  }

  // ---------- one replacement ----------

  /** Inert text is passed over. */
  lemma {:induction false} PassOver(text: string, rest: string, pattern: string, value: string)
    requires pattern != "" && Inert(text, pattern)
    ensures ReplaceAll(text + rest, pattern, value) == text + ReplaceAll(rest, pattern, value)
  {
    if text == "" {
      assert text + rest == rest;
    } else {
      var s := text + rest;
      NoMatchHere(text, rest, pattern);
      assert s[1..] == text[1..] + rest && s[..1] == text[..1];
      assert forall i :: 0 <= i < |text[1..]| ==> text[1..][i..] == text[i + 1..];
      PassOver(text[1..], rest, pattern, value);
      assert text == text[..1] + text[1..];
    }
  }

  lemma PrefixOfBoth(text: string, rest: string, pattern: string)
    requires pattern <= text + rest
    ensures pattern <= text || text <= pattern
  {
    if |pattern| <= |text| {
      assert pattern == (text + rest)[..|pattern|] == text[..|pattern|];
    } else {
      assert text == (text + rest)[..|text|] == pattern[..|text|];
    }
  }

  lemma NoMatchHere(text: string, rest: string, pattern: string)
    requires text != "" && Inert(text, pattern)
    ensures !(pattern <= text + rest)
  {
    assert text[0..] == text;
    if pattern <= text + rest {
      PrefixOfBoth(text, rest, pattern);
    }
  }

  /** A placeholder whose name goes on, or ends, differently from the key does not match. */
  lemma {:induction false} NameMatches(key: string, name: string, rest: string)
    requires PlainName(key) && PlainName(name) && key + RIGHT <= name + RIGHT + rest
    ensures key == name
  {
    var s := name + RIGHT + rest;
    assert s[|key|] == (key + RIGHT)[|key|] == '}' == s[|name|];
    assert forall i :: 0 <= i < |name| ==> s[i] == name[i] != '}';
    assert forall i :: 0 <= i < |key| ==> s[i] == (key + RIGHT)[i] == key[i] != '}';
    assert |key| == |name|;
  }

  lemma {:induction false} AtOther(name: string, rest: string, key: string)
    requires PlainName(name) && PlainName(key) && name != key
    ensures !(Placeholder(key) <= Placeholder(name) + rest)
  {
    var s, pattern := Placeholder(name) + rest, Placeholder(key);
    assert s[2..] == name + RIGHT + rest && pattern[2..] == key + RIGHT;
    if pattern <= s {
      assert pattern[2..] <= s[2..];
      NameMatches(key, name, rest);
    }
  }

  lemma {:induction false} AtPlaceholder(name: string, rest: string, key: string, value: string)
    requires PlainName(name) && PlainName(key)
    ensures ProcessVar(Placeholder(name) + rest, key, value) ==
            (if name == key then value else Placeholder(name)) + ProcessVar(rest, key, value)
  {
    var s, pattern := Placeholder(name) + rest, Placeholder(key);
    if name == key {
      assert s[|pattern|..] == rest;
    } else {
      AtOther(name, rest, key);
      var inner := "{" + name + RIGHT;
      assert s[..1] == "$" && s[1..] == inner + rest;
      PlainIsInert(inner, key);
      PassOver(inner, rest, pattern, value);
      assert Placeholder(name) == "$" + inner;
    }
  }

  function PutOne(segments: seq<Segment>, key: string, value: string): (r: seq<Segment>)
    ensures |r| == |segments|
  {
    seq(|segments|, i requires 0 <= i < |segments| =>
      if segments[i] == Var(key) then Text(value) else segments[i])
  }

  /** No text can be taken for the placeholder of a key, and names are names. */
  ghost predicate Safe(segments: seq<Segment>, key: string)
  {
    forall s :: s in segments ==> if s.Text? then Inert(s.text, Placeholder(key)) else PlainName(s.name)
  }

  /** Replacing a key in written text is putting its value in place of the placeholder. */
  lemma {:induction false} ProcessVarIsPut(segments: seq<Segment>, key: string, value: string)
    requires Safe(segments, key) && PlainName(key)
    ensures ProcessVar(Write(segments), key, value) == Write(PutOne(segments, key, value))
  {
    if segments == [] {
    } else {
      var rest := segments[1..];
      assert segments[0] in segments;
      ProcessVarIsPut(rest, key, value);
      assert PutOne(segments, key, value)[1..] == PutOne(rest, key, value);
      match segments[0]
      case Text(t) => PassOver(t, Write(rest), Placeholder(key), value);
      case Var(name) => AtPlaceholder(name, Write(rest), key, value);
    }
  }

  /** Replacing a placeholder by itself changes nothing. */
  lemma {:induction false} ReplaceBySelf(s: string, pattern: string)
    requires pattern != ""
    ensures ReplaceAll(s, pattern, pattern) == s
  {
    if s == "" {
    } else {
      if pattern <= s {
        ReplaceBySelf(s[|pattern|..], pattern);
        assert s == pattern + s[|pattern|..];
      } else {
        ReplaceBySelf(s[1..], pattern);
        assert s == s[..1] + s[1..];
      }
    }
  }

  lemma {:induction false} PutSelf(segments: seq<Segment>, key: string)
    ensures Write(PutOne(segments, key, Placeholder(key))) == Write(segments)
  {
    if segments == [] {
    } else {
      PutSelf(segments[1..], key);
      assert PutOne(segments, key, Placeholder(key))[1..] == PutOne(segments[1..], key, Placeholder(key));
    }
  }

  // ---------- all of them, in any order ----------

  /** Every key once. */
  ghost predicate Enumerates(order: seq<string>, dict: map<string, string>)
  {
    && (forall key :: key in order <==> key in dict)
    && (forall i, j :: 0 <= i < j < |order| ==> order[i] != order[j])
  }

  ghost predicate Begins(order: seq<string>, dict: map<string, string>)
  {
    && (forall key :: key in order ==> key in dict)
    && (forall i, j :: 0 <= i < j < |order| ==> order[i] != order[j])
  }

  /** Text and values that are already in place cannot be taken for the next key. */
  lemma HalfSafe(segments: seq<Segment>, prefix: string, dict: map<string, string>, done: set<string>, key: string)
    requires Clean(segments) && CleanKeys(prefix, dict) && Harmless(prefix, dict)
    requires done <= dict.Keys && key in dict && key !in done && dict[key] != Placeholder(prefix + key)
    ensures Safe(Substitute(segments, prefix, dict, done), prefix + key)
  {
    var half := Substitute(segments, prefix, dict, done);
    forall s | s in half
      ensures if s.Text? then Inert(s.text, Placeholder(prefix + key)) else PlainName(s.name)
    {
      var i :| 0 <= i < |half| && half[i] == s;
      assert segments[i] in segments;
      if segments[i].Text? {
        PlainIsInert(segments[i].text, prefix + key);
      }
    }
  }

  /** The keys handled so far have been substituted, the others not: the order leaves no trace. */
  lemma {:induction false} AnyOrder(segments: seq<Segment>, prefix: string, dict: map<string, string>,
                                    order: seq<string>)
    requires Clean(segments) && CleanKeys(prefix, dict) && Harmless(prefix, dict) && Begins(order, dict)
    ensures ProcessEach(Write(segments), prefix, dict, order) ==
            Write(Substitute(segments, prefix, dict, set key | key in order))
  {
    if order == [] {
      assert Substitute(segments, prefix, dict, set key | key in order) == segments;
    } else {
      var n := |order| - 1;
      var key := order[n];
      var done := set k | k in order[..n];
      AnyOrder(segments, prefix, dict, order[..n]);
      var half := Substitute(segments, prefix, dict, done);
      if dict[key] == Placeholder(prefix + key) {
        ReplaceBySelf(Write(half), Placeholder(prefix + key));
        PutSelf(half, prefix + key);
      } else {
        HalfSafe(segments, prefix, dict, done, key);
        ProcessVarIsPut(half, prefix + key, dict[key]);
      }
      assert (set k | k in order) == done + {key};
      PutNext(segments, prefix, dict, done, key);
    }
  }

  lemma PutNext(segments: seq<Segment>, prefix: string, dict: map<string, string>, done: set<string>, key: string)
    requires done <= dict.Keys && key in dict
    ensures PutOne(Substitute(segments, prefix, dict, done), prefix + key, dict[key]) ==
            Substitute(segments, prefix, dict, done + {key})
  {
    forall i | 0 <= i < |segments|
      ensures PutOne(Substitute(segments, prefix, dict, done), prefix + key, dict[key])[i] ==
              Substitute(segments, prefix, dict, done + {key})[i]
    {
      var s := segments[i];
      if s.Var? && prefix <= s.name {
        assert s.name == prefix + s.name[|prefix|..];
        assert s.name == prefix + key <==> s.name[|prefix|..] == key;
      } else {
        assert s != Var(prefix + key);
      }
    }
  }

  /**
  Processes the keys in an arbitrary order. Whatever that order, if no value does harm then clean text
  comes out as if all placeholders had been substituted at once.
  */
  method SprintfVar(pattern: string, prefix: string, dict: map<string, string>)
    returns (result: string, ghost order: seq<string>)
    ensures Enumerates(order, dict) && result == ProcessEach(pattern, prefix, dict, order)
    ensures CleanKeys(prefix, dict) && Harmless(prefix, dict) ==>
              forall segments :: pattern == Write(segments) && Clean(segments) ==>
                result == Write(Substitute(segments, prefix, dict, dict.Keys))
  {
    result, order := pattern, [];
    var left := dict.Keys;
    while left != {}
      invariant left <= dict.Keys && forall key :: key in order <==> key in dict && key !in left
      invariant forall i, j :: 0 <= i < j < |order| ==> order[i] != order[j]
      invariant result == ProcessEach(pattern, prefix, dict, order)
      decreases |left|
    {
      var key :| key in left;
      assert (order + [key])[..|order|] == order;
      result := ProcessVar(result, prefix + key, dict[key]);
      left, order := left - {key}, order + [key];
    }
    if CleanKeys(prefix, dict) && Harmless(prefix, dict) {
      forall segments | pattern == Write(segments) && Clean(segments)
        ensures result == Write(Substitute(segments, prefix, dict, dict.Keys))
      {
        AnyOrder(segments, prefix, dict, order);
        assert (set key | key in order) == dict.Keys;
      }
    }
  }

  // ---------- the exact condition ----------

  ghost predicate Occurs(s: string, pattern: string)
  {
    exists i :: 0 <= i <= |s| && pattern <= s[i..]
  }

  lemma OccursLater(s: string, pattern: string)
    requires pattern != "" && Occurs(s, pattern) && !(pattern <= s)
    ensures s != "" && Occurs(s[1..], pattern)
  {
    var i :| 0 <= i <= |s| && pattern <= s[i..];
    assert s[0..] == s;
    assert s[1..][i - 1..] == s[i..];
  }

  lemma {:induction false} ReplaceLength(s: string, pattern: string, value: string)
    requires pattern != ""
    ensures var r := ReplaceAll(s, pattern, value);
            && (|value| > |pattern| ==> |r| >= |s| && (Occurs(s, pattern) ==> |r| > |s|))
            && (|value| < |pattern| ==> |r| <= |s| && (Occurs(s, pattern) ==> |r| < |s|))
  {
    if s == "" {
    } else {
      if pattern <= s {
        ReplaceLength(s[|pattern|..], pattern, value);
      } else {
        ReplaceLength(s[1..], pattern, value);
        if Occurs(s, pattern) {
          OccursLater(s, pattern);
        }
      }
    }
  }

  /** Replacing something that occurs by something else is seen. */
  lemma {:induction false} ReplaceShows(s: string, pattern: string, value: string)
    requires pattern != "" && value != pattern && Occurs(s, pattern)
    ensures ReplaceAll(s, pattern, value) != s
  {
    if |value| != |pattern| {
      ReplaceLength(s, pattern, value);
    } else if pattern <= s {
      assert ReplaceAll(s, pattern, value)[..|pattern|] == value;
    } else {
      OccursLater(s, pattern);
      ReplaceShows(s[1..], pattern, value);
      assert ReplaceAll(s, pattern, value)[1..] == ReplaceAll(s[1..], pattern, value);
    }
  }

  lemma {:induction false} Listing(keys: set<string>) returns (order: seq<string>)
    ensures forall key :: key in order <==> key in keys
    ensures forall i, j :: 0 <= i < j < |order| ==> order[i] != order[j]
    decreases |keys|
  {
    if keys == {} {
      order := [];
    } else {
      var key :| key in keys;
      var others := Listing(keys - {key});
      order := others + [key];
    }
  }

  /** Keys without a placeholder in clean text leave it alone. */
  lemma {:induction false} Untouched(segments: seq<Segment>, prefix: string, dict: map<string, string>,
                                     order: seq<string>)
    requires Clean(segments) && CleanKeys(prefix, dict)
    requires forall key :: key in order ==> key in dict && Var(prefix + key) !in segments
    ensures ProcessEach(Write(segments), prefix, dict, order) == Write(segments)
  {
    if order == [] {
    } else {
      var n := |order| - 1;
      var key := order[n];
      Untouched(segments, prefix, dict, order[..n]);
      CleanIsSafe(segments, prefix + key);
      ProcessVarIsPut(segments, prefix + key, dict[key]);
      assert PutOne(segments, prefix + key, dict[key]) == segments by {
        assert forall i :: 0 <= i < |segments| ==> segments[i] in segments;
      }
    }
  }

  lemma CleanIsSafe(segments: seq<Segment>, key: string)
    requires Clean(segments)
    ensures Safe(segments, key)
  {
    forall s | s in segments && s.Text?
      ensures Inert(s.text, Placeholder(key))
    {
      PlainIsInert(s.text, key);
    }
  }

  lemma TailPlain(key: string, j: nat)
    requires PlainName(key) && 1 <= j <= |Placeholder(key)|
    ensures Plain(Placeholder(key)[j..])
  {
    var pattern := Placeholder(key);
    assert pattern[1..] == "{" + key + RIGHT;
    assert forall i :: 1 <= i < |pattern| ==> pattern[i] == pattern[1..][i - 1];
  }

  lemma Completed(text: string, i: nat, pattern: string)
    requires i < |text| && text[i..] <= pattern
    ensures Occurs(text + pattern[|text| - i..], pattern)
  {
    var j := |text| - i;
    assert pattern == pattern[..j] + pattern[j..];
    assert (text + pattern[j..])[i..] == text[i..] + pattern[j..];
    assert pattern <= (text + pattern[j..])[i..];
  }

  /** What makes the value of a key harmful: text behind it that completes another placeholder. */
  lemma Completion(text: string, key: string) returns (tail: string)
    requires PlainName(key) && !Inert(text, Placeholder(key))
    ensures Plain(tail) && Occurs(text + tail, Placeholder(key))
  {
    var pattern := Placeholder(key);
    var i :| 0 <= i < |text| && (pattern <= text[i..] || text[i..] <= pattern);
    if pattern <= text[i..] {
      tail := "";
      assert text + tail == text;
    } else {
      tail := pattern[|text| - i..];
      TailPlain(key, |text| - i);
      Completed(text, i, pattern);
    }
  }

  /** Text before which `a` is done and `k` still to come, or the other way round. */
  lemma Harm(prefix: string, dict: map<string, string>, a: string, k: string)
    returns (segments: seq<Segment>, early: seq<string>, late: seq<string>)
    requires CleanKeys(prefix, dict) && a in dict && k in dict && a != k
    requires dict[k] != Placeholder(prefix + k) && !Inert(dict[a], Placeholder(prefix + k))
    ensures Clean(segments) && Enumerates(early, dict) && Enumerates(late, dict)
    ensures ProcessEach(Write(segments), prefix, dict, late) == Write(Substitute(segments, prefix, dict, dict.Keys))
    ensures ProcessEach(Write(segments), prefix, dict, early) != ProcessEach(Write(segments), prefix, dict, late)
  {
    var tail := Completion(dict[a], prefix + k);
    segments := [Var(prefix + a), Text(tail)];
    var others := Listing(dict.Keys - {a, k});
    early, late := others + [a, k], others + [k, a];
    WithBoth(others, dict, a, k);
    WithBoth(others, dict, k, a);
    EarlyResult(segments, prefix, dict, others, a, k, tail);
    LateResult(segments, prefix, dict, others, a, k, tail);
    ReplaceShows(dict[a] + tail, Placeholder(prefix + k), dict[k]);
  }

  lemma WithBoth(others: seq<string>, dict: map<string, string>, a: string, k: string)
    requires a in dict && k in dict && a != k && forall key :: key in others <==> key in dict && key != a && key != k
    requires forall i, j :: 0 <= i < j < |others| ==> others[i] != others[j]
    ensures Enumerates(others + [a, k], dict)
  {
  }

  /** With `a` first, `k` finds its placeholder. */
  lemma EarlyResult(segments: seq<Segment>, prefix: string, dict: map<string, string>, others: seq<string>, a: string,
                    k: string, tail: string)
    requires CleanKeys(prefix, dict) && a in dict && k in dict && Plain(tail)
    requires segments == [Var(prefix + a), Text(tail)] && forall key :: key in others ==> key in dict && key != a
    ensures ProcessEach(Write(segments), prefix, dict, others + [a, k]) ==
            ProcessVar(dict[a] + tail, prefix + k, dict[k])
  {
    OnlyOwn(segments, prefix, dict, others, a, tail);
    LastTwo(Write(segments), prefix, dict, others, a, k);
  }

  /** With `k` first, nothing happens to what `a` puts in. */
  lemma LateResult(segments: seq<Segment>, prefix: string, dict: map<string, string>, others: seq<string>, a: string,
                   k: string, tail: string)
    requires CleanKeys(prefix, dict) && a in dict && k in dict && a != k && Plain(tail)
    requires segments == [Var(prefix + a), Text(tail)] && forall key :: key in others ==> key in dict && key != a
    ensures ProcessEach(Write(segments), prefix, dict, others + [k, a]) == dict[a] + tail
    ensures Write(Substitute(segments, prefix, dict, dict.Keys)) == dict[a] + tail
  {
    OnlyOwn(segments, prefix, dict, others + [k], a, tail);
    LastOne(Write(segments), prefix, dict, others + [k], a);
    assert others + [k] + [a] == others + [k, a];
    assert Substitute(segments, prefix, dict, dict.Keys) == [Text(dict[a]), Text(tail)];
    TwoTexts(dict[a], tail);
  }

  /** Other keys leave a placeholder with plain text behind it alone; its own key puts the value in. */
  lemma OnlyOwn(segments: seq<Segment>, prefix: string, dict: map<string, string>, order: seq<string>, a: string,
                tail: string)
    requires CleanKeys(prefix, dict) && a in dict && Plain(tail) && segments == [Var(prefix + a), Text(tail)]
    requires forall key :: key in order ==> key in dict && key != a
    ensures ProcessVar(ProcessEach(Write(segments), prefix, dict, order), prefix + a, dict[a]) == dict[a] + tail
  {
    forall key | key in order
      ensures Var(prefix + key) !in segments
    {
      assert (prefix + key)[|prefix|..] == key && (prefix + a)[|prefix|..] == a;
    }
    Untouched(segments, prefix, dict, order);
    CleanIsSafe(segments, prefix + a);
    ProcessVarIsPut(segments, prefix + a, dict[a]);
    assert PutOne(segments, prefix + a, dict[a]) == [Text(dict[a]), Text(tail)];
    TwoTexts(dict[a], tail);
  }

  lemma TwoTexts(a: string, b: string)
    ensures Write([Text(a), Text(b)]) == a + b
  {
    assert [Text(a), Text(b)][1..] == [Text(b)] && [Text(b)][1..] == [];
    assert Write([Text(b)]) == b + "";
  }

  lemma LastOne(s: string, prefix: string, dict: map<string, string>, order: seq<string>, a: string)
    requires (forall key :: key in order ==> key in dict) && a in dict
    ensures ProcessEach(s, prefix, dict, order + [a]) ==
            ProcessVar(ProcessEach(s, prefix, dict, order), prefix + a, dict[a])
  {
    assert (order + [a])[..|order|] == order;
  }

  lemma LastTwo(s: string, prefix: string, dict: map<string, string>, order: seq<string>, a: string, k: string)
    requires (forall key :: key in order ==> key in dict) && a in dict && k in dict
    ensures ProcessEach(s, prefix, dict, order + [a, k]) ==
            ProcessVar(ProcessVar(ProcessEach(s, prefix, dict, order), prefix + a, dict[a]), prefix + k, dict[k])
  {
    assert order + [a, k] == order + [a] + [k];
    LastOne(s, prefix, dict, order, a);
    LastOne(s, prefix, dict, order + [a], k);
  }

  /** For every clean pattern and every order, the result is simultaneous substitution. */
  ghost predicate OrderFree(prefix: string, dict: map<string, string>)
  {
    forall segments, order | Clean(segments) && Enumerates(order, dict) ::
      ProcessEach(Write(segments), prefix, dict, order) == Write(Substitute(segments, prefix, dict, dict.Keys))
  }

  /** For every clean pattern, all orders give the same result. */
  ghost predicate OrdersAgree(prefix: string, dict: map<string, string>)
  {
    forall segments, early, late | Clean(segments) && Enumerates(early, dict) && Enumerates(late, dict) ::
      ProcessEach(Write(segments), prefix, dict, early) == ProcessEach(Write(segments), prefix, dict, late)
  }

  /**
  The exact condition: with names for keys, all orders agree on every clean pattern, and agree with
  simultaneous substitution, if and only if no value contains, or ends with a beginning of, the placeholder
  of another key.
  */
  lemma OrderFreeIff(prefix: string, dict: map<string, string>)
    requires CleanKeys(prefix, dict)
    ensures OrderFree(prefix, dict) <==> Harmless(prefix, dict)
    ensures OrdersAgree(prefix, dict) <==> Harmless(prefix, dict)
  {
    if Harmless(prefix, dict) {
      forall segments, order | Clean(segments) && Enumerates(order, dict)
        ensures ProcessEach(Write(segments), prefix, dict, order) ==
                Write(Substitute(segments, prefix, dict, dict.Keys))
      {
        AnyOrder(segments, prefix, dict, order);
        assert (set key | key in order) == dict.Keys;
      }
    } else {
      var a, k :| a in dict && k in dict && a != k && dict[k] != Placeholder(prefix + k) &&
                  !Inert(dict[a], Placeholder(prefix + k));
      var segments, early, late := Harm(prefix, dict, a, k);
      assert !OrdersAgree(prefix, dict);
    }
  }

  /** A value that holds a placeholder itself makes the order visible. */
  lemma OrderMatters()
    ensures var dict := map["a" := "${b}", "b" := "x"];
            && ProcessEach("${a}", "", dict, ["a", "b"]) == "x"
            && ProcessEach("${a}", "", dict, ["b", "a"]) == "${b}"
  {
    var dict := map["a" := "${b}", "b" := "x"];
    FirstTwo("${a}", dict, "a", "b");
    FirstTwo("${a}", dict, "b", "a");
    AtPlaceholder("a", "", "a", "${b}");
    AtPlaceholder("b", "", "b", "x");
    AtPlaceholder("a", "", "b", "x");
    assert Placeholder("a") + "" == "${a}" && Placeholder("b") + "" == "${b}";
  }

  lemma FirstTwo(s: string, dict: map<string, string>, a: string, k: string)
    requires a in dict && k in dict
    ensures ProcessEach(s, "", dict, [a, k]) == ProcessVar(ProcessVar(s, a, dict[a]), k, dict[k])
  {
    LastTwo(s, "", dict, [], a, k);
    assert [] + [a, k] == [a, k] && "" + a == a && "" + k == k;
  }
}
