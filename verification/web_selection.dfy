/** The dashboard's set of selected tunnels. A JavaScript Set keeps its members
    in insertion order and that order reaches the bulk delete, so the set is a
    sequence without repeats. Members are the public-port keys of the status
    answer's tunnel object, as strings. */
module Selection {

  predicate NoDup(s: seq<string>)
  {
    forall i, j :: 0 <= i < j < |s| ==> s[i] != s[j]
  }

  /** Set.prototype.delete: `s` without `x`, the rest in order. */
  function Without(s: seq<string>, x: string): (r: seq<string>)
    ensures x !in r
    ensures forall y :: y != x ==> (y in r <==> y in s)
    ensures NoDup(s) ==> NoDup(r)
    ensures x !in s ==> r == s
    ensures NoDup(s) && x in s ==> |r| == |s| - 1
  {
    if |s| == 0 then []
    else if s[|s| - 1] == x then Without(s[..|s| - 1], x)
    else
      var r0 := Without(s[..|s| - 1], x);
      assert NoDup(s) ==> s[|s| - 1] !in s[..|s| - 1];
      r0 + [s[|s| - 1]]
  }

  /** new Set(keys): the distinct keys, each at its first occurrence. */
  function FromList(keys: seq<string>): (r: seq<string>)
    ensures NoDup(r)
    ensures forall y :: y in r <==> y in keys
    ensures NoDup(keys) ==> r == keys
    ensures |r| <= |keys|
  {
    if |keys| == 0 then []
    else
      var r0 := FromList(keys[..|keys| - 1]);
      var x := keys[|keys| - 1];
      assert keys == keys[..|keys| - 1] + [x];
      if x in r0 then r0 else r0 + [x]
  }

  /** The tunnel row's checkbox: flips the membership of `id` and of nothing
      else; a newly selected id goes last. */
  function Toggle(sel: seq<string>, id: string): (r: seq<string>)
    ensures NoDup(sel) ==> NoDup(r)
    ensures id in r <==> id !in sel
    ensures forall y :: y != id ==> (y in r <==> y in sel)
    ensures id !in sel ==> r == sel + [id]
  {
    if id in sel then Without(sel, id) else sel + [id]
  }

  /** The header checkbox: clears the selection when it has as many members as
      there are known tunnels, and otherwise selects every known tunnel. Only
      the sizes are compared, not the members. */
  function ToggleAll(sel: seq<string>, keys: seq<string>): (r: seq<string>)
    ensures NoDup(r)
    ensures |sel| == |keys| ==> r == []
    ensures |sel| != |keys| ==> forall y :: y in r <==> y in keys
  {
    if |sel| == |keys| then [] else FromList(keys)
  }

  /** Toggling the same row twice restores the same members. */
  lemma {:induction false} ToggleTwice(sel: seq<string>, id: string)
    ensures forall y :: y in Toggle(Toggle(sel, id), id) <==> y in sel
  {
    var once := Toggle(sel, id);
    var twice := Toggle(once, id);
    forall y
      ensures y in twice <==> y in sel
    {
      if y == id {
        assert id in once <==> id !in sel;
        assert id in twice <==> id !in once;
      }
    }
  }

  /** Pressing the header checkbox twice from an empty selection ends empty,
      whatever the tunnel keys are. */
  lemma {:induction false} ToggleAllTwiceFromEmpty(keys: seq<string>)
    requires NoDup(keys)
    ensures ToggleAll(ToggleAll([], keys), keys) == []
  {
    var once := ToggleAll([], keys);
    if |keys| != 0 {
      assert once == keys;
    }
  }

  /** The size comparison in practice: with five tunnels the header checkbox
      selects all five and then clears them. */
  lemma FiveTunnels()
    ensures ToggleAll([], ["1", "2", "3", "4", "5"]) == ["1", "2", "3", "4", "5"]
    ensures ToggleAll(ToggleAll([], ["1", "2", "3", "4", "5"]), ["1", "2", "3", "4", "5"]) == []
  {
    ToggleAllTwiceFromEmpty(["1", "2", "3", "4", "5"]);
  }

  /** A selection that kept the key of a tunnel which has since gone away has
      the size of the one known tunnel, so the header checkbox clears it
      instead of selecting the tunnel that is actually there. */
  lemma StaleSelectionClears()
    ensures ToggleAll(["9000"], ["8080"]) == []
    ensures "8080" !in ToggleAll(["9000"], ["8080"])
  {
  }
}
