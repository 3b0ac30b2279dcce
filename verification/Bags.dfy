/**
 Sequences as multisets of their elements.
 */
module Bags {

  lemma MemberIndex<T>(s: seq<T>, c: T)
    requires c in multiset(s)
    ensures exists i :: 0 <= i < |s| && s[i] == c
  {
    assert c in s;
  }

  lemma {:induction false} CountTwo<T>(s: seq<T>, i: nat, j: nat)
    requires i < j < |s| && s[i] == s[j]
    ensures multiset(s)[s[i]] >= 2
  {
    assert s == s[..j] + [s[j]] + s[j + 1..];
    assert s[..j][i] == s[i];
    assert s[i] in multiset(s[..j]);
  }

  lemma {:induction false} TwoIndices<T>(s: seq<T>, c: T)
    requires multiset(s)[c] >= 2
    ensures exists i, j :: 0 <= i < j < |s| && s[i] == c && s[j] == c
  {
    var n := |s| - 1;
    assert s == s[..n] + [s[n]];
    if s[n] == c {
      MemberIndex(s[..n], c);
      var i :| 0 <= i < n && s[..n][i] == c;
      assert s[i] == c && s[n] == c;
    } else {
      TwoIndices(s[..n], c);
      var i, j :| 0 <= i < j < n && s[..n][i] == c && s[..n][j] == c;
      assert s[i] == c && s[j] == c;
    }
  }
}
