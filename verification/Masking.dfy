/** Log masking (worker/service.go): every secret value found in a log text is
    replaced by "***".  The question is whether the text that comes out can
    still hold one of the secrets. */
module Masking {
  import opened Text
  import opened Collections

  const MASK := "***"

  /** strings.ReplaceAll(s, v, MASK): leftmost, non-overlapping. */
  function ReplaceAll(s: string, v: string): string
    requires v != ""
    decreases |s|
  {
    if |s| < |v| then s
    else if v <= s then MASK + ReplaceAll(s[|v|..], v)
    else [s[0]] + ReplaceAll(s[1..], v)
  }

  function MaskAll(s: string, secrets: seq<string>): string
    requires "" !in secrets
    decreases |secrets|
  {
    if secrets == [] then s else MaskAll(ReplaceAll(s, secrets[0]), secrets[1..])
  }

  /** A secret no mask can imitate: it neither starts nor ends with '*' and holds
      no three consecutive '*'.  Every secret without '*' is of this kind. */
  predicate StarSafe(v: string) {
    && v != "" && v[0] != '*' && v[|v| - 1] != '*'
    && forall k :: 0 <= k < |v| - 2 ==> !(v[k] == '*' && v[k + 1] == '*' && v[k + 2] == '*')
  }

  // ----- masking with star-safe secrets leaves no secret behind

  /** A star-safe word at the front of a masked text was at the front of the text. */
  lemma {:induction false} PrefixWasThere(s: string, v: string, w: string)
    requires v != "" && w <= ReplaceAll(s, v)
    requires w == "" || w[|w| - 1] != '*'
    requires forall k :: 0 <= k < |w| - 2 ==> !(w[k] == '*' && w[k + 1] == '*' && w[k + 2] == '*')
    ensures w <= s
    decreases |s|
  {
    var r := ReplaceAll(s, v);
    assert |w| > 0 ==> w[0] == r[0] && w[|w| - 1] == r[|w| - 1];
    assert |w| >= 3 ==> w[0] == r[0] && w[0 + 1] == r[0 + 1] && w[0 + 2] == r[0 + 2];
    if w != "" && |s| >= |v| && !(v <= s) {
      assert w[1..] <= ReplaceAll(s[1..], v);
      PrefixWasThere(s[1..], v, w[1..]);
    }
  }

  lemma Shifted(pre: string, s: string, w: string, k: int)
    requires k >= |pre|
    ensures OccursAt(pre + s, w, k) <==> OccursAt(s, w, k - |pre|)
  {
    var t := pre + s;
    if k <= |t| - |w| { assert t[k..k + |w|] == s[k - |pre|..k - |pre| + |w|]; }
  }

  lemma AfterPrefix(pre: string, s: string, w: string)
    requires Contains(s, w)
    ensures Contains(pre + s, w)
  {
    var j :| 0 <= j <= |s| - |w| && OccursAt(s, w, j);
    Shifted(pre, s, w, j + |pre|);
  }

  lemma NotInMask(r: string, w: string, k: int)
    requires OccursAt(MASK + r, w, k) && w != "" && w[0] != '*'
    ensures k >= 3
  {
    assert (MASK + r)[k..k + |w|][0] == (MASK + r)[k];
  }

  /** Masking never creates an occurrence of a star-safe word, and removes every
      occurrence of the word it replaces. */
  lemma {:induction false} OccurrenceWasThere(s: string, v: string, w: string, k: int)
    requires v != "" && StarSafe(w) && OccursAt(ReplaceAll(s, v), w, k)
    ensures Contains(s, w) && w != v
    decreases |s|
  {
    if |s| < |v| {
      assert OccursAt(s, w, k);
    } else if v <= s {
      var rest := s[|v|..];
      NotInMask(ReplaceAll(rest, v), w, k);
      Shifted(MASK, ReplaceAll(rest, v), w, k);
      OccurrenceWasThere(rest, v, w, k - 3);
      AfterPrefix(v, rest, w);
      assert s == v + rest;
    } else if k == 0 {
      PrefixWasThere(s, v, w);
      assert OccursAt(s, w, 0);
    } else {
      var rest := s[1..];
      Shifted([s[0]], ReplaceAll(rest, v), w, k);
      OccurrenceWasThere(rest, v, w, k - 1);
      AfterPrefix([s[0]], rest, w);
      assert s == [s[0]] + rest;
    }
  }

  /** A word absent before the remaining replacements stays absent. */
  lemma {:induction false} StaysAbsent(s: string, secrets: seq<string>, w: string)
    requires StarSafe(w) && !Contains(s, w) && "" !in secrets
    ensures !Contains(MaskAll(s, secrets), w)
    decreases |secrets|
  {
    if secrets != [] {
      var t := ReplaceAll(s, secrets[0]);
      forall k | OccursAt(t, w, k) ensures false { OccurrenceWasThere(s, secrets[0], w, k); }
      StaysAbsent(t, secrets[1..], w);
    }
  }

  /** The promise of maskSecrets: whatever the text and the order of the secrets,
      no star-safe secret survives, and none is put together again by a later
      replacement. */
  lemma {:induction false} MaskedTextHoldsNoSecret(s: string, secrets: seq<string>, w: string)
    requires w in secrets && StarSafe(w) && "" !in secrets
    ensures !Contains(MaskAll(s, secrets), w)
    decreases |secrets|
  {
    var t := ReplaceAll(s, secrets[0]);
    if w == secrets[0] {
      forall k | OccursAt(t, w, k) ensures false { OccurrenceWasThere(s, w, w, k); }
      StaysAbsent(t, secrets[1..], w);
    } else {
      MaskedTextHoldsNoSecret(t, secrets[1..], w);
    }
  }

  // ----- everything but the secret is kept

  lemma TailOccurs(s: string, v: string, k: nat)
    requires s != ""
    ensures OccursAt(s[1..], v, k) <==> OccursAt(s, v, k + 1)
  {
    assert s == [s[0]] + s[1..];
    Shifted([s[0]], s[1..], v, k + 1);
  }

  ghost predicate NoneBefore(s: string, v: string, p: nat) {
    forall k :: 0 <= k < p ==> !OccursAt(s, v, k)
  }

  lemma NoneBeforeTail(s: string, v: string, p: nat)
    requires s != "" && p > 0 && NoneBefore(s, v, p)
    ensures !(v <= s) && NoneBefore(s[1..], v, p - 1)
  {
    assert !OccursAt(s, v, 0);
    assert |v| <= |s| ==> s[0..0 + |v|] == s[..|v|];
    forall k | 0 <= k < p - 1 ensures !OccursAt(s[1..], v, k) { TailOccurs(s, v, k); }
  }

  lemma FrontIsReplaced(v: string, post: string)
    requires v != ""
    ensures ReplaceAll(v + post, v) == MASK + ReplaceAll(post, v)
  {
    var s := v + post;
    assert s[|v|..] == post && v <= s;
  }

  lemma CharIsKept(s: string, v: string)
    requires v != "" && |s| >= |v| && !(v <= s)
    ensures ReplaceAll(s, v) == [s[0]] + ReplaceAll(s[1..], v)
  {
  }

  /** ReplaceAll keeps what precedes the first occurrence and goes on after it. */
  lemma {:induction false} FirstIsReplaced(pre: string, v: string, post: string)
    requires v != "" && NoneBefore(pre + (v + post), v, |pre|)
    ensures ReplaceAll(pre + (v + post), v) == pre + (MASK + ReplaceAll(post, v))
    decreases |pre|
  {
    hide NoneBefore, ReplaceAll;
    var s := pre + (v + post);
    if pre == "" {
      assert s == v + post;
      FrontIsReplaced(v, post);
    } else {
      NoneBeforeTail(s, v, |pre|);
      CharIsKept(s, v);
      assert s[1..] == pre[1..] + (v + post);
      FirstIsReplaced(pre[1..], v, post);
      var rest := MASK + ReplaceAll(post, v);
      assert [s[0]] + (pre[1..] + rest) == pre + rest;
    }
  }

  /** A text that does not hold the secret is left alone. */
  lemma {:induction false} UntouchedWithout(s: string, v: string)
    requires v != "" && !Contains(s, v)
    ensures ReplaceAll(s, v) == s
    decreases |s|
  {
    if |s| >= |v| {
      assert !OccursAt(s, v, 0) && s[0..0 + |v|] == s[..|v|];
      forall k | OccursAt(s[1..], v, k) ensures false { TailOccurs(s, v, k); }
      UntouchedWithout(s[1..], v);
    }
  }

  function Joined(parts: seq<string>, sep: string): string
    requires parts != []
  {
    if |parts| == 1 then parts[0] else parts[0] + (sep + Joined(parts[1..], sep))
  }

  /** The pieces of a text between the occurrences of a secret, cut leftmost: a piece
      with the secret after it holds the secret nowhere earlier, and the last piece
      does not hold it. */
  ghost predicate CutLeftmost(parts: seq<string>, v: string) {
    && parts != []
    && (forall i :: 0 <= i < |parts| - 1 ==> NoneBefore(parts[i] + v, v, |parts[i]|))
    && !Contains(parts[|parts| - 1], v)
  }

  /** What replacing one secret means: pieces stay, the secret between them goes. */
  ghost predicate Masks(s: string, v: string, t: string) {
    exists parts :: CutLeftmost(parts, v) && s == Joined(parts, v) && t == Joined(parts, MASK)
  }

  lemma NoneBeforeLonger(p: string, v: string, rest: string)
    ensures NoneBefore(p + v, v, |p|) <==> NoneBefore(p + (v + rest), v, |p|)
  {
    forall k | 0 <= k < |p| ensures OccursAt(p + v, v, k) <==> OccursAt(p + (v + rest), v, k) {
      assert (p + v)[k..k + |v|] == (p + (v + rest))[k..k + |v|];
    }
  }

  lemma {:induction false} PiecesAreKept(parts: seq<string>, v: string)
    requires v != "" && CutLeftmost(parts, v)
    ensures ReplaceAll(Joined(parts, v), v) == Joined(parts, MASK)
    decreases |parts|
  {
    if |parts| == 1 {
      UntouchedWithout(parts[0], v);
    } else {
      hide NoneBefore, ReplaceAll;
      var rest := Joined(parts[1..], v);
      NoneBeforeLonger(parts[0], v, rest);
      FirstIsReplaced(parts[0], v, rest);
      PiecesAreKept(parts[1..], v);
    }
  }

  /** Every text can be cut that way. */
  lemma {:induction false} CanBeCut(s: string, v: string) returns (parts: seq<string>)
    requires v != ""
    ensures CutLeftmost(parts, v) && s == Joined(parts, v)
    decreases |s|
  {
    if !Contains(s, v) { return [s]; }
    var k: nat := 0;
    while !OccursAt(s, v, k)
      invariant NoneBefore(s, v, k) && k <= |s|
      decreases |s| - k
    {
      k := k + 1;
    }
    var rest := s[k + |v|..];
    assert s == s[..k] + (v + rest);
    NoneBeforeLonger(s[..k], v, rest);
    var more := CanBeCut(rest, v);
    parts := [s[..k]] + more;
    assert parts[1..] == more;
  }

  lemma ReplacingMasks(s: string, v: string)
    requires v != ""
    ensures Masks(s, v, ReplaceAll(s, v))
  {
    hide ReplaceAll, CutLeftmost;
    var parts := CanBeCut(s, v);
    PiecesAreKept(parts, v);
  }

  /** Replacing one secret keeps every piece of the text around it: a text is what
      replacing gives exactly when it is the pieces with masks between them. */
  lemma ReplacedExactlyWhen(s: string, v: string, t: string)
    requires v != ""
    ensures t == ReplaceAll(s, v) <==> Masks(s, v, t)
  {
    hide ReplaceAll;
    ReplacingMasks(s, v);
    if parts :| CutLeftmost(parts, v) && s == Joined(parts, v) && t == Joined(parts, MASK) { PiecesAreKept(parts, v); }
  }

  /** A text that holds none of the secrets is left alone by all of them. */
  lemma {:induction false} UntouchedByAll(s: string, secrets: seq<string>)
    requires "" !in secrets && forall w :: w in secrets ==> !Contains(s, w)
    ensures MaskAll(s, secrets) == s
    decreases |secrets|
  {
    if secrets != [] {
      UntouchedWithout(s, secrets[0]);
      UntouchedByAll(s, secrets[1..]);
    }
  }

  // ----- star-safety is exactly what a single secret needs

  lemma ShorterIsUntouched(pre: string, v: string, post: string)
    requires v != "" && |post| < |v| && NoneBefore(pre + v + post, v, |pre|)
    ensures ReplaceAll(pre + v + post, v) == pre + MASK + post
  {
    assert pre + v + post == pre + (v + post);
    FirstIsReplaced(pre, v, post);
  }

  lemma OccurrenceChar(s: string, v: string, k: int, i: int)
    requires OccursAt(s, v, k) && 0 <= i < |v|
    ensures s[k + i] == v[i]
  {
    assert s[k..k + |v|][i] == s[k + i];
  }

  lemma LeadingStarLeaks(v: string)
    requires v != "" && v[0] == '*'
    ensures Contains(ReplaceAll(v + v[1..], v), v)
  {
    assert v + v[1..] == "" + v + v[1..];
    ShorterIsUntouched("", v, v[1..]);
    var r := "" + MASK + v[1..];
    assert r[2..2 + |v|] == v;
    assert OccursAt(r, v, 2);
  }

  lemma NotEarlierTrailing(t: string, k: int)
    requires 0 <= k < |t| && t[0] != '*'
    ensures !OccursAt(t + (t + "*") + "", t + "*", k)
  {
    var v, text := t + "*", t + (t + "*") + "";
    if OccursAt(text, v, k) {
      OccurrenceChar(text, v, k, 0);
      OccurrenceChar(text, v, k, |t|);
    }
  }

  lemma TrailingStarLeaks(t: string)
    requires t != "" && t[0] != '*'
    ensures Contains(ReplaceAll(t + (t + "*") + "", t + "*"), t + "*")
  {
    var v := t + "*";
    forall k | 0 <= k < |t| ensures !OccursAt(t + v + "", v, k) { NotEarlierTrailing(t, k); }
    ShorterIsUntouched(t, v, "");
    var r := t + MASK + "";
    assert r[0..0 + |v|] == v;
    assert OccursAt(r, v, 0);
  }

  lemma NotEarlierInside(a: string, b: string, k: nat)
    requires k < |a|
    requires var v := a + MASK + b; !(v[k] == '*' && v[k + 1] == '*' && v[k + 2] == '*')
    ensures !OccursAt(a + (a + MASK + b) + b, a + MASK + b, k)
  {
    var v := a + MASK + b;
    var text := a + v + b;
    if OccursAt(text, v, k) {
      OccurrenceChar(text, v, k, |a|);
      OccurrenceChar(text, v, k, |a| + 1);
      OccurrenceChar(text, v, k, |a| + 2);
    }
  }

  lemma StarsInsideLeak(a: string, b: string)
    requires var v := a + MASK + b;
      forall k :: 0 <= k < |a| ==> !(v[k] == '*' && v[k + 1] == '*' && v[k + 2] == '*')
    ensures ReplaceAll(a + (a + MASK + b) + b, a + MASK + b) == a + MASK + b
  {
    var v := a + MASK + b;
    forall k | 0 <= k < |a| ensures !OccursAt(a + v + b, v, k) { NotEarlierInside(a, b, k); }
    ShorterIsUntouched(a, v, b);
  }

  /** For every secret that is not star-safe there is a text whose masked form
      still shows it. */
  lemma UnsafeSecretLeaks(v: string) returns (text: string)
    requires v != "" && !StarSafe(v)
    ensures Contains(ReplaceAll(text, v), v)
  {
    if v[0] == '*' {
      text := v + v[1..];
      LeadingStarLeaks(v);
    } else if v[|v| - 1] == '*' {
      var t := v[..|v| - 1];
      assert v == t + "*";
      text := t + (t + "*") + "";
      TrailingStarLeaks(t);
    } else {
      text := InnerStarsLeak(v);
    }
  }

  lemma InnerStarsLeak(v: string) returns (text: string)
    requires exists i :: 0 <= i < |v| - 2 && v[i] == '*' && v[i + 1] == '*' && v[i + 2] == '*'
    ensures Contains(ReplaceAll(text, v), v)
  {
    var i :| 0 <= i < |v| - 2 && v[i] == '*' && v[i + 1] == '*' && v[i + 2] == '*';
    var p := FirstStars(v, i);
    var a, b := v[..p], v[p + 3..];
    assert v == a + MASK + b;
    StarsInsideLeak(a, b);
    text := a + (a + MASK + b) + b;
    assert v[0..0 + |v|] == v;
    assert OccursAt(v, v, 0);
  }

  lemma FirstStars(v: string, i: nat) returns (p: nat)
    requires i < |v| - 2 && v[i] == '*' && v[i + 1] == '*' && v[i + 2] == '*'
    ensures p <= i && v[p] == '*' && v[p + 1] == '*' && v[p + 2] == '*'
    ensures forall k :: 0 <= k < p ==> !(v[k] == '*' && v[k + 1] == '*' && v[k + 2] == '*')
  {
    p := 0;
    while !(v[p] == '*' && v[p + 1] == '*' && v[p + 2] == '*')
      invariant p <= i
      invariant forall k :: 0 <= k < p ==> !(v[k] == '*' && v[k + 1] == '*' && v[k + 2] == '*')
      decreases i - p
    {
      p := p + 1;
    }
  }

  /** One secret is safely masked in every text exactly when it is star-safe. */
  lemma SafeExactlyWhenStarSafe(v: string)
    requires v != ""
    ensures StarSafe(v) <==> forall text: string :: !Contains(ReplaceAll(text, v), v)
  {
    if StarSafe(v) {
      forall text: string ensures !Contains(ReplaceAll(text, v), v) {
        forall k | OccursAt(ReplaceAll(text, v), v, k) ensures false {
          OccurrenceWasThere(text, v, v, k);
        }
      }
    } else {
      var text := UnsafeSecretLeaks(v);
      assert exists t: string :: Contains(ReplaceAll(t, v), v);
    }
  }

  // ----- the methods

  ghost predicate LongestFirst(vals: seq<string>) {
    forall i, j :: 0 <= i < j < |vals| ==> |vals[i]| >= |vals[j]|
  }

  /** The values worth masking: at least three bytes, and of some placeholder not
      declared as plain configuration. */
  ghost predicate Maskable(resolved: map<string, string>, unmasked: set<string>, v: string) {
    |v| >= 3 && exists p :: p in resolved && p !in unmasked && resolved[p] == v
  }

  lemma InsertedOnce(vals: seq<string>, i: nat, v: string)
    requires i <= |vals| && Distinct(vals) && v !in vals
    ensures Distinct(vals[..i] + [v] + vals[i..])
    ensures forall w :: w in vals[..i] + [v] + vals[i..] <==> w in vals || w == v
  {
    assert vals == vals[..i] + vals[i..];
  }

  /** Keeps `vals` ordered longest first while adding a value. */
  method InsertByLength(vals: seq<string>, v: string) returns (r: seq<string>)
    requires LongestFirst(vals) && Distinct(vals) && v !in vals
    ensures LongestFirst(r) && Distinct(r)
    ensures forall w :: w in r <==> w in vals || w == v
  {
    var i: nat := 0;
    while i < |vals| && |vals[i]| >= |v|
      invariant 0 <= i <= |vals|
      invariant forall k :: 0 <= k < i ==> |vals[k]| >= |v|
    {
      i := i + 1;
    }
    r := vals[..i] + [v] + vals[i..];
    InsertedOnce(vals, i, v);
  }

  method SecretValuesFromResolved(resolved: map<string, string>, unmasked: set<string>)
    returns (vals: seq<string>)
    ensures forall v :: v in vals <==> Maskable(resolved, unmasked, v)
    ensures Distinct(vals) && LongestFirst(vals)
  {
    vals := [];
    var todo := resolved.Keys;
    while todo != {}
      invariant todo <= resolved.Keys
      invariant Distinct(vals) && LongestFirst(vals)
      invariant forall v :: v in vals <==>
        |v| >= 3 && exists p :: p in resolved && p !in todo && p !in unmasked && resolved[p] == v
    {
      var p :| p in todo;
      ghost var before := todo;
      todo := todo - {p};
      var v := resolved[p];
      if p !in unmasked && |v| >= 3 && v !in vals {
        vals := InsertByLength(vals, v);
        assert p !in todo && p !in unmasked && resolved[p] == v;
      }
      assert forall q :: q in resolved && q !in todo <==> (q in resolved && q !in before) || q == p;
    }
  }

  /** The secrets are masked one after the other, each keeping all but itself, and in
      the end no star-safe secret is left. */
  method MaskSecrets(text: string, secretValues: seq<string>) returns (s: string, ghost steps: seq<string>)
    requires "" !in secretValues
    ensures s == MaskAll(text, secretValues)
    ensures |steps| == |secretValues| + 1 && steps[0] == text && steps[|secretValues|] == s
    ensures forall i :: 0 <= i < |secretValues| ==> Masks(steps[i], secretValues[i], steps[i + 1])
    ensures (forall w :: w in secretValues ==> !Contains(text, w)) ==> s == text
    ensures forall w :: w in secretValues && StarSafe(w) ==> !Contains(s, w)
  {
    hide Masks, Contains, ReplaceAll;
    s, steps := text, [text];
    for i := 0 to |secretValues|
      invariant MaskAll(s, secretValues[i..]) == MaskAll(text, secretValues)
      invariant |steps| == i + 1 && steps[0] == text && steps[i] == s
      invariant forall k :: 0 <= k < i ==> Masks(steps[k], secretValues[k], steps[k + 1])
    {
      assert secretValues[i..][1..] == secretValues[i + 1..];
      ReplacingMasks(s, secretValues[i]);
      s := ReplaceAll(s, secretValues[i]);
      steps := steps + [s];
    }
    if forall w :: w in secretValues ==> !Contains(text, w) { UntouchedByAll(text, secretValues); }
    forall w | w in secretValues && StarSafe(w) ensures !Contains(s, w) {
      MaskedTextHoldsNoSecret(text, secretValues, w);
    }
  }

  /** A log text and the secrets of a build together: no star-safe value of three bytes
      or more of a placeholder that is not plain configuration is left, and a text that
      holds no such value is shown as it is. */
  method MaskLog(text: string, resolved: map<string, string>, unmasked: set<string>) returns (s: string)
    ensures forall p :: p in resolved && p !in unmasked && |resolved[p]| >= 3 && StarSafe(resolved[p]) ==>
      !Contains(s, resolved[p])
    ensures (forall p :: p in resolved && p !in unmasked && |resolved[p]| >= 3 ==> !Contains(text, resolved[p])) ==>
      s == text
  {
    hide Contains, StarSafe, Masks, MaskAll;
    var vals := SecretValuesFromResolved(resolved, unmasked);
    ghost var steps;
    s, steps := MaskSecrets(text, vals);
    forall p | p in resolved && p !in unmasked && |resolved[p]| >= 3 ensures resolved[p] in vals {
      assert Maskable(resolved, unmasked, resolved[p]);
    }
  }
}
