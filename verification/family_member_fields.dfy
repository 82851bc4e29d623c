/** The family-member editor: replacing one field of one member in the list. */
module FamilyMemberFields {
  import opened Residents

  /** The keys the member editor offers (its `keyof FamilyMember`). */
  const EditableFields: set<MemberField> := {Nama, Status, TanggalLahir, JenisKelamin, NoHp}

  /**
   * `updateMember(index, field, value)`: a copy of the list whose element at
   * `index` is that member with `field` set to `value`. The list it was given
   * is a value and stays as it was.
   */
  function UpdateMember(members: seq<FamilyMember>, index: int, field: MemberField, value: string)
    : (updated: seq<FamilyMember>)
    requires 0 <= index < |members| && field in EditableFields
    ensures |updated| == |members|
    ensures field in updated[index] && updated[index][field] == value
    ensures forall f :: f != field ==> (f in updated[index] <==> f in members[index])
    ensures forall f :: f != field && f in members[index] ==> updated[index][f] == members[index][f]
    ensures forall j :: 0 <= j < |members| && j != index ==> updated[j] == members[j]
  {
    members[index := members[index][field := value]]
  }

  /** Writing the value a field already holds gives back the same list. */
  lemma UpdateWithSameValue(members: seq<FamilyMember>, index: int, field: MemberField)
    requires 0 <= index < |members| && field in EditableFields && field in members[index]
    ensures UpdateMember(members, index, field, members[index][field]) == members
  {
    var updated := UpdateMember(members, index, field, members[index][field]);
    assert updated[index] == members[index];
  }

  /** Two edits of one field of one member: the later one wins. */
  lemma LaterEditWins(members: seq<FamilyMember>, index: int, field: MemberField, first: string, second: string)
    requires 0 <= index < |members| && field in EditableFields
    ensures UpdateMember(UpdateMember(members, index, field, first), index, field, second)
            == UpdateMember(members, index, field, second)
  {
    var a := UpdateMember(UpdateMember(members, index, field, first), index, field, second);
    var b := UpdateMember(members, index, field, second);
    assert a[index] == b[index];
  }

  /** Edits of different fields, or of different members, do not interfere. */
  lemma IndependentEditsCommute(members: seq<FamilyMember>, i: int, f: MemberField, v: string,
                                j: int, g: MemberField, w: string)
    requires 0 <= i < |members| && 0 <= j < |members| && f in EditableFields && g in EditableFields
    requires i != j || f != g
    ensures UpdateMember(UpdateMember(members, i, f, v), j, g, w)
            == UpdateMember(UpdateMember(members, j, g, w), i, f, v)
  {
    var a := UpdateMember(UpdateMember(members, i, f, v), j, g, w);
    var b := UpdateMember(UpdateMember(members, j, g, w), i, f, v);
    if i == j {
      assert a[i] == b[i];
    }
    assert forall k :: 0 <= k < |a| ==> a[k] == b[k];
  }
}
