/** Values of the user's own on tokens: conf_token_set_user_value and conf_token_get_user_value. */
module ConfUser {
  import opened Vstr
  import opened ConfLexer
  import opened ConfWalk

  const UINT: nat := 0x1_0000_0000

  /** A stored value, 0 for none, and the number of a next token. */
  datatype Stored = Stored(ref: nat, nxt: nat)

  class Store {
    var sects: seq<Sect>
    var types: seq<nat>
    var uvals: seq<Stored>
    /** How many values there is room for, an unsigned int. */
    var uvalsSz: nat

    predicate IsUser(i: nat)
      reads this
      requires i < |types|
    {
      types[i] >= TYPE_USER_BEG
    }

    /** Each token of the user's has a stored value to itself; its section says which. */
    ghost predicate Valid()
      reads this
    {
      && |sects| == |types| && |uvals| <= uvalsSz < UINT
      && (forall i :: 0 <= i < |types| && IsUser(i) ==> sects[i].pos < |uvals|)
      && (forall i, j :: 0 <= i < j < |types| && IsUser(i) && IsUser(j) ==> sects[i].pos != sects[j].pos)
    }

    constructor (sects: seq<Sect>, types: seq<nat>)
      requires |sects| == |types| && forall i :: 0 <= i < |types| ==> types[i] < TYPE_USER_BEG
      ensures Valid() && this.sects == sects && this.types == types && uvals == []
    {
      this.sects, this.types, uvals, uvalsSz := sects, types, [], 0;
    }

    /** conf_token_get_user_value: no value for a token that is not the user's. */
    function Get(i: nat): Stored
      reads this
      requires Valid() && i < |types|
    {
      if IsUser(i) then uvals[sects[i].pos] else Stored(0, 0)
    }

    /** conf_token_set_user_value on token number num: a list cannot be changed, and a token that is not the
      user's yet needs room; the values of all other tokens stay as they are. */
    method Set(num: nat, typ: nat, uval: nat, nxt: nat) returns (ok: bool)
      requires Valid() && 1 <= num <= |types| && typ <= UINT - 1 - TYPE_USER_BEG
      modifies this
      ensures Valid()
      ensures ok == (!IsList(old(types)[num - 1]) &&
                     (old(IsUser(num - 1)) || |old(uvals)| < old(uvalsSz) || (old(uvalsSz) * 2 + 1) % UINT > old(uvalsSz)))
      ensures !ok ==> sects == old(sects) && types == old(types) && uvals == old(uvals)
      ensures ok ==> types == old(types)[num - 1 := TYPE_USER_BEG + typ] && Get(num - 1) == Stored(uval, nxt)
      ensures ok ==> forall i :: 0 <= i < |types| && i != num - 1 ==> sects[i] == old(sects)[i] && Get(i) == old(Get(i))
      ensures |sects| == |old(sects)| && forall i :: 0 <= i < |sects| ==> sects[i].len == old(sects)[i].len
    {
      var n := num - 1;
      if types[n] == TYPE_CLIST || types[n] == TYPE_SLIST {
        return false;
      }
      if types[n] < TYPE_USER_BEG {
        if uvalsSz <= |uvals| {
          var more := (uvalsSz * 2 + 1) % UINT;
          if more <= uvalsSz {
            return false;
          }
          uvalsSz := more;
        }
        sects := sects[n := sects[n].(pos := |uvals|)];
        uvals := uvals + [Stored(0, 0)];
      }
      types := types[n := TYPE_USER_BEG + typ];
      uvals := uvals[sects[n].pos := Stored(uval, nxt)];
      return true;
    }
  }

  /** Values on tokens do not change which lists any token is in: the array walks as before. */
  lemma {:induction false} SetKeepsInside(sects: seq<Sect>, types: seq<nat>, sects': seq<Sect>, types': seq<nat>, k: nat, m: nat)
    requires m <= |sects| == |types| == |sects'| == |types'|
    requires forall i :: 0 <= i < |sects| ==> sects'[i].len == sects[i].len
    requires forall i :: 0 <= i < |types| ==>
      types'[i] == types[i] || (!IsList(types[i]) && types'[i] >= TYPE_USER_BEG)
    ensures Inside(sects', types', k, m) == Inside(sects, types, k, m)
  {
    if m > 0 {
      SetKeepsInside(sects, types, sects', types', k, m - 1);
    }
  }

  lemma SetKeepsEnclosing(sects: seq<Sect>, types: seq<nat>, sects': seq<Sect>, types': seq<nat>)
    requires |sects| == |types| == |sects'| == |types'|
    requires forall i :: 0 <= i < |sects| ==> sects'[i].len == sects[i].len
    requires forall i :: 0 <= i < |types| ==>
      types'[i] == types[i] || (!IsList(types[i]) && types'[i] >= TYPE_USER_BEG)
    ensures forall k :: 0 <= k <= |sects| ==> Enclosing(sects', types', k) == Enclosing(sects, types, k)
  {
    forall k | 0 <= k <= |sects|
      ensures Enclosing(sects', types', k) == Enclosing(sects, types, k)
    {
      SetKeepsInside(sects, types, sects', types', k, k);
    }
  }
}
