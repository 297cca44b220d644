/** Matching a collider's path against the actor's name token: the Python
    expression `token in path` on strings (a substring test). */
module PathMatch {

  type Path = string

  /** Name token of the driven stick; the actor lives at `<default prim>/swing/swing/stick0`. */
  const ActorToken: string := "stick0"

  /** The substring occurrence relation, stated directly: some window of `s` equals `t`. */
  ghost predicate OccursAt(t: string, s: string, i: int)
  {
    0 <= i && i + |t| <= |s| && s[i..i + |t|] == t
  }

  /** `t in s` for Python strings, computed by scanning `s` from the left. */
  function Contains(s: string, t: string): bool
    decreases |s|
  {
    if |s| < |t| then false
    else if s[..|t|] == t then true
    else Contains(s[1..], t)
  }

  /** The scan finds the token exactly when some window of the path equals it. */
  lemma {:induction false} ContainsIff(s: string, t: string)
    ensures Contains(s, t) <==> exists i :: OccursAt(t, s, i)
    decreases |s|
  {
    if |s| < |t| {
      assert forall i :: !OccursAt(t, s, i);
    } else if s[..|t|] == t {
      assert OccursAt(t, s, 0);
    } else {
      ContainsIff(s[1..], t);
      if Contains(s[1..], t) {
        var i :| OccursAt(t, s[1..], i);
        assert s[1..][i..i + |t|] == s[i + 1..i + 1 + |t|];
        assert OccursAt(t, s, i + 1);
      }
      if exists i :: OccursAt(t, s, i) {
        var i :| OccursAt(t, s, i);
        assert i != 0;
        assert s[1..][i - 1..i - 1 + |t|] == s[i..i + |t|];
        assert OccursAt(t, s[1..], i - 1);
      }
    }
  }

  /** Whether a triggered collider is the driven stick (or any prim below it). */
  predicate IsActor(p: Path)
  {
    Contains(p, ActorToken)
  }

  /** A path that holds the token anywhere is recognised as the actor. */
  lemma ActorPathRecognised(prefix: string, suffix: string)
    ensures IsActor(prefix + ActorToken + suffix)
  {
    var s := prefix + ActorToken + suffix;
    assert s[|prefix|..|prefix| + |ActorToken|] == ActorToken;
    assert OccursAt(ActorToken, s, |prefix|);
    ContainsIff(s, ActorToken);
  }
}
