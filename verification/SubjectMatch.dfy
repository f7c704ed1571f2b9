/** The wildcard matcher of the fake NATS server. Subjects are sequences of tokens; in a pattern `*` stands for one
    token and `>` for one or more remaining tokens. */
module SubjectMatch {
  import opened Text

  const ANY := "*"
  const REST := ">"

  /** The recursive meaning of a pattern. */
  predicate Denotes(pat: seq<string>, sub: seq<string>) {
    if pat == [] then sub == []
    else if pat[0] == REST then sub != []
    else sub != [] && (pat[0] == ANY || pat[0] == sub[0]) && Denotes(pat[1..], sub[1..])
  }

  /** The two-pointer loop of the server. */
  method SubjectMatches(pattern: string, subject: string) returns (b: bool)
    ensures b <==> Denotes(Split(pattern, '.'), Split(subject, '.'))
  {
    var pat := Split(pattern, '.');
    var sub := Split(subject, '.');
    var pi, si := 0, 0;
    while pi < |pat| && si < |sub|
      invariant 0 <= pi <= |pat| && 0 <= si <= |sub|
      invariant Denotes(pat, sub) <==> Denotes(pat[pi..], sub[si..])
    {
      if pat[pi] == REST {
        return true;
      } else if pat[pi] == ANY {
        pi, si := pi + 1, si + 1;
      } else if pat[pi] == sub[si] {
        pi, si := pi + 1, si + 1;
      } else {
        return false;
      }
    }
    b := pi == |pat| && si == |sub|;
  }

  // ---------------------------------------------------------------- the meaning without recursion

  /** The position of the first `>` of a pattern, or its length. */
  function RestAt(pat: seq<string>): (g: nat)
    ensures g <= |pat| && (g < |pat| ==> pat[g] == REST)
    ensures forall i :: 0 <= i < g ==> pat[i] != REST
  {
    if pat == [] || pat[0] == REST then 0 else 1 + RestAt(pat[1..])
  }

  ghost predicate TokensAgree(pat: seq<string>, sub: seq<string>, n: nat)
    requires n <= |pat| && n <= |sub|
  {
    forall i :: 0 <= i < n ==> pat[i] == ANY || pat[i] == sub[i]
  }

  /** A pattern matches exactly the subjects that agree with it token by token up to its first `>`, and that go on past
      it when there is one and stop with the pattern when there is none. */
  lemma {:induction false} DenotesPointwise(pat: seq<string>, sub: seq<string>)
    ensures var g := RestAt(pat);
            Denotes(pat, sub) <==>
              (if g < |pat| then g < |sub| else |sub| == |pat|) && g <= |sub| && TokensAgree(pat, sub, g)
  {
    if pat != [] && pat[0] != REST && sub != [] {
      DenotesPointwise(pat[1..], sub[1..]);
      var g := RestAt(pat);
      assert g == 1 + RestAt(pat[1..]);
      if g <= |sub| {
        assert forall i :: 0 <= i < g - 1 ==> pat[1..][i] == pat[i + 1] && sub[1..][i] == sub[i + 1];
        assert TokensAgree(pat, sub, g) <==>
               (pat[0] == ANY || pat[0] == sub[0]) && TokensAgree(pat[1..], sub[1..], g - 1) by {
          if TokensAgree(pat[1..], sub[1..], g - 1) && (pat[0] == ANY || pat[0] == sub[0]) {
            forall i | 0 <= i < g ensures pat[i] == ANY || pat[i] == sub[i] {
              if i > 0 {
                assert pat[1..][i - 1] == pat[i] && sub[1..][i - 1] == sub[i];
              }
            }
          }
        }
      }
    }
  }

  function Stars(n: nat): (s: seq<string>)
    ensures |s| == n && forall i :: 0 <= i < n ==> s[i] == ANY
  {
    seq(n, _ => ANY)
  }

  lemma {:induction false} StarsMatchLength(n: nat, sub: seq<string>)
    ensures Denotes(Stars(n), sub) <==> |sub| == n
  {
    DenotesPointwise(Stars(n), sub);
  }

  lemma {:induction false} PrefixThenRest(pat: seq<string>, tail: seq<string>, sub: seq<string>)
    requires REST !in pat
    ensures Denotes(pat + tail, sub) <==>
              |pat| <= |sub| && TokensAgree(pat, sub, |pat|) && Denotes(tail, sub[|pat|..])
    decreases |pat|
  {
    if pat == [] {
      assert pat + tail == tail && sub[0..] == sub;
    } else if sub != [] {
      assert (pat + tail)[1..] == pat[1..] + tail;
      PrefixThenRest(pat[1..], tail, sub[1..]);
      if |pat| <= |sub| {
        assert sub[1..][|pat| - 1..] == sub[|pat|..];
        assert TokensAgree(pat, sub, |pat|) <==>
               (pat[0] == ANY || pat[0] == sub[0]) && TokensAgree(pat[1..], sub[1..], |pat| - 1) by {
          if (pat[0] == ANY || pat[0] == sub[0]) && TokensAgree(pat[1..], sub[1..], |pat| - 1) {
            forall i | 0 <= i < |pat| ensures pat[i] == ANY || pat[i] == sub[i] {
              if i > 0 {
                assert pat[1..][i - 1] == pat[i] && sub[1..][i - 1] == sub[i];
              }
            }
          }
          assert forall i :: 0 <= i < |pat| - 1 ==> pat[1..][i] == pat[i + 1] && sub[1..][i] == sub[i + 1];
        }
      }
    }
  }

  /** `>` at the end of a pattern means exactly "one or more `*`". */
  lemma RestIsStars(pat: seq<string>, sub: seq<string>)
    requires REST !in pat
    ensures Denotes(pat + [REST], sub) <==> exists n: nat :: n >= 1 && Denotes(pat + Stars(n), sub)
  {
    PrefixThenRest(pat, [REST], sub);
    forall n: nat ensures Denotes(pat + Stars(n), sub) <==>
                          |pat| <= |sub| && TokensAgree(pat, sub, |pat|) && |sub| == |pat| + n {
      PrefixThenRest(pat, Stars(n), sub);
      if |pat| <= |sub| {
        StarsMatchLength(n, sub[|pat|..]);
      }
    }
    if Denotes(pat + [REST], sub) {
      var n := |sub| - |pat|;
      assert Denotes(pat + Stars(n), sub);
    }
  }

  // ---------------------------------------------------------------- patterns and subjects as text

  /** The tokens of a pattern up to its first `>`, at g, agree with those of a subject, and the subject goes on past g
      when there is one and stops with the pattern when there is none. */
  predicate AgreesTo(pat: seq<string>, sub: seq<string>, g: nat) {
    && g <= |pat| && g <= |sub|
    && (forall i :: 0 <= i < g ==> pat[i] != ">" && (pat[i] == "*" || pat[i] == sub[i]))
    && (if g < |pat| then pat[g] == ">" && g < |sub| else |sub| == |pat|)
  }

  ghost predicate Agrees(pattern: string, subject: string) {
    exists g: nat :: AgreesTo(Split(pattern, '.'), Split(subject, '.'), g)
  }

  lemma DenotesExactly(pat: seq<string>, sub: seq<string>)
    ensures Denotes(pat, sub) <==> exists g: nat :: AgreesTo(pat, sub, g)
  {
    DenotesPointwise(pat, sub);
    var r := RestAt(pat);
    if Denotes(pat, sub) {
      assert AgreesTo(pat, sub, r);
    }
    if g: nat :| AgreesTo(pat, sub, g) {
      assert g == r;
    }
  }

  lemma {:induction false} JoinLast(ts: seq<string>, t: string, c: char)
    requires ts != []
    ensures Join(ts + [t], c) == Join(ts, c) + [c] + t
  {
    if |ts| > 1 {
      JoinLast(ts[1..], t, c);
      assert (ts + [t])[1..] == ts[1..] + [t];
    }
  }

  lemma SplitLast(prefix: string, token: string, c: char)
    requires c !in token
    ensures Split(prefix + [c] + token, c) == Split(prefix, c) + [token]
  {
    hide Split;
    hide Join;
    JoinSplit(prefix, c);
    JoinLast(Split(prefix, c), token, c);
    SplitJoinFree(Split(prefix, c) + [token], c);
  }

  lemma {:induction false} LastStar(pat: seq<string>, token: string)
    ensures Denotes(pat + [ANY], pat + [token])
  {
    if pat == [] {
      assert [ANY][1..] == [] && [token][1..] == [];
    } else {
      assert (pat + [ANY])[1..] == pat[1..] + [ANY] && (pat + [token])[1..] == pat[1..] + [token];
      LastStar(pat[1..], token);
    }
  }

  /** A client's subscription to its inbox, a prefix and a star, covers every reply subject it makes from it. */
  lemma InboxIsCovered(prefix: string, token: string)
    requires '.' !in token
    ensures Agrees(prefix + ".*", prefix + "." + token)
  {
    SplitLast(prefix, ANY, '.');
    SplitLast(prefix, token, '.');
    assert prefix + ".*" == prefix + ['.'] + ANY && prefix + "." + token == prefix + ['.'] + token;
    LastStar(Split(prefix, '.'), token);
    DenotesExactly(Split(prefix + ".*", '.'), Split(prefix + "." + token, '.'));
  }

  // ---------------------------------------------------------------- the subscription table

  /** Whether an inbox may be answered on a subscription: sid to pattern is the server's table. */
  predicate Covers(subs: map<string, string>, sid: string, inbox: string) {
    sid in subs && Denotes(Split(subs[sid], '.'), Split(inbox, '.'))
  }

  lemma CoversExactly(subs: map<string, string>, sid: string, inbox: string)
    ensures Covers(subs, sid, inbox) <==> sid in subs && Agrees(subs[sid], inbox)
  {
    if sid in subs {
      DenotesExactly(Split(subs[sid], '.'), Split(inbox, '.'));
    }
  }

  /** Walks the table in no particular order. A sid is found exactly when the pattern of some subscription agrees with the
      inbox, and then it is the sid of such a subscription. */
  method FindSidFor(subs: map<string, string>, inbox: string) returns (r: Option<string>)
    ensures r.Some? ==> r.value in subs && Agrees(subs[r.value], inbox)
    ensures r.None? ==> forall sid :: sid in subs ==> !Agrees(subs[sid], inbox)
    ensures r.Some? ==> Covers(subs, r.value, inbox)
    ensures r.None? ==> forall sid :: sid in subs ==> !Covers(subs, sid, inbox)
  {
    hide Agrees;
    hide Denotes;
    forall sid | sid in subs ensures Covers(subs, sid, inbox) <==> Agrees(subs[sid], inbox) {
      CoversExactly(subs, sid, inbox);
    }
    var left := subs.Keys;
    while left != {}
      invariant left <= subs.Keys
      invariant forall sid :: sid in subs.Keys - left ==> !Covers(subs, sid, inbox)
      decreases left
    {
      var sid :| sid in left;
      var hit := SubjectMatches(subs[sid], inbox);
      if hit {
        return Some(sid);
      }
      left := left - {sid};
    }
    r := None;
  }
}
