/** An optional value, a random choice, and the few operations on lists of numbers that the linked lists need. */
module Basics {
  datatype Option<+T> = None | Some(value: T)

  ghost predicate Distinct(c: seq<nat>) {
    forall j, k :: 0 <= j < k < |c| ==> c[j] != c[k]
  }

  function Without(c: seq<nat>, k: nat): seq<nat>
    requires k < |c|
  {
    c[..k] + c[k + 1..]
  }

  /** A list without the first occurrence of one number. */
  function Minus(c: seq<nat>, s: nat): (d: seq<nat>)
    ensures s !in c ==> d == c
  {
    if c == [] then [] else if c[0] == s then c[1..] else [c[0]] + Minus(c[1..], s)
  }

  lemma {:induction false} MinusAt(c: seq<nat>, s: nat, k: nat)
    requires k < |c| && c[k] == s && Distinct(c)
    ensures Minus(c, s) == Without(c, k)
  {
    if k > 0 {
      assert c[0] != c[k];
      assert Distinct(c[1..]);
      MinusAt(c[1..], s, k - 1);
      assert [c[0]] + Without(c[1..], k - 1) == Without(c, k);
    }
  }

  lemma {:induction false} MinusInside(c: seq<nat>, s: nat)
    ensures forall t :: t in Minus(c, s) ==> t in c
    ensures |Minus(c, s)| <= |c|
    ensures Distinct(c) ==> s !in Minus(c, s)
  {
    if c != [] && c[0] != s {
      assert Distinct(c) ==> Distinct(c[1..]);
      MinusInside(c[1..], s);
    }
  }

  /** Taking one number out of a list without repetitions. */
  lemma {:induction false} MinusDistinct(c: seq<nat>, s: nat)
    requires Distinct(c)
    ensures Distinct(Minus(c, s)) && forall t :: t in Minus(c, s) <==> t in c && t != s
  {
    if c != [] {
      var rest := c[1..];
      assert c == [c[0]] + rest && c[0] !in rest && Distinct(rest);
      MinusDistinct(rest, s);
    }
  }

  /** list_move_tail, and list_add_tail of a number that was not there. */
  lemma {:induction false} AppendDistinct(c: seq<nat>, s: nat)
    requires Distinct(c) && s !in c
    ensures Distinct(c + [s]) && forall t :: t in c + [s] <==> t in c || t == s
  {
  }

  /** dns_random: any number below n. */
  method Random(n: nat) returns (i: nat)
    requires n > 0
    ensures i < n
  {
    assert 0 < n;
    i :| i < n;
  }

  // ---------- Choosing by place ----------

  /** ks are the places below n that are wanted, all of them, in ascending order. */
  ghost predicate Selects(ks: seq<nat>, n: nat, want: nat -> bool) {
    && (forall i, j :: 0 <= i < j < |ks| ==> ks[i] < ks[j])
    && (forall i :: 0 <= i < |ks| ==> ks[i] < n && want(ks[i]))
    && forall k: nat :: k < n && want(k) ==> k in ks
  }

  lemma {:induction false} SelectsNone(want: nat -> bool)
    ensures Selects([], 0, want)
  {
  }

  lemma {:induction false} SelectsMore(ks: seq<nat>, n: nat, want: nat -> bool)
    requires Selects(ks, n, want)
    ensures Selects(if want(n) then ks + [n] else ks, n + 1, want)
  {
    if want(n) {
      forall k: nat | k < n + 1 && want(k) ensures k in ks + [n] {
        if k < n { assert k in ks; }
      }
    }
  }
}
