/** The family-history reduction of `pre_family_history`: every illness
    cell of a relative is coded 1 (mentions diabetes), 0 (another illness)
    or 3 (unknown or null); `np.select` then picks, for each relative, the
    first matching condition over the four instances, with the "1" tests
    ahead of the "3" tests ahead of the "0" tests, and finally every 3
    becomes 0.
 */
module Family {
  import opened Wrappers
  import opened Labels

  const DiabetesWord: string := "Diabetes"
  const DoNotKnow: string := "Do not know"

  /** Number of assessment instances per relative. */
  const Instances: nat := 4

  /** `re.search(w, s)` for a plain word `w`. */
  predicate Contains(s: string, w: string) {
    exists i :: 0 <= i <= |s| - |w| && OccursAt(s, w, i)
  }

  predicate OccursAt(s: string, w: string, i: int)
    requires 0 <= i <= |s| - |w|
  {
    s[i..i + |w|] == w
  }

  /** `diagnosis_including_diabetes` followed by the three `replace` calls:
      the list a cell value lands in decides its code. */
  function IllnessCode(c: Cell): (code: int)
    ensures code == 0 || code == 1 || code == 3
    ensures code == 1 <==> c.Some? && Contains(c.value, DiabetesWord)
  {
    if c.None? then 3
    else if Contains(c.value, DiabetesWord) then 1
    else if Contains(c.value, DoNotKnow) then 3
    else 0
  }

  /** `np.select(conditions, values)` with its default of 0: the value of the
      first condition that holds. */
  function Select(conditions: seq<bool>, values: seq<int>): (r: int)
    requires |conditions| == |values|
    ensures (forall i :: 0 <= i < |conditions| ==> !conditions[i]) ==> r == 0
    ensures forall i :: 0 <= i < |conditions| ==>
              (conditions[i] && (forall j :: 0 <= j < i ==> !conditions[j])) ==> r == values[i]
  {
    if |conditions| == 0 then 0
    else if conditions[0] then values[0]
    else
      var r := Select(conditions[1..], values[1..]);
      assert forall i :: 1 <= i < |conditions| ==> conditions[i] == conditions[1..][i - 1];
      r
  }

  /** The twelve conditions of one relative, in the order of the source. */
  function Conditions(codes: seq<int>): (c: seq<bool>)
    requires |codes| == Instances
    ensures |c| == 3 * Instances
  {
    [codes[0] == 1, codes[1] == 1, codes[2] == 1, codes[3] == 1,
     codes[0] == 3, codes[1] == 3, codes[2] == 3, codes[3] == 3,
     codes[0] == 0, codes[1] == 0, codes[2] == 0, codes[3] == 0]
  }

  const SelectValues: seq<int> := [1, 1, 1, 1, 3, 3, 3, 3, 0, 0, 0, 0]

  /** The codes of a relative's four instance cells. */
  function Codes(instances: seq<Cell>): (codes: seq<int>)
    requires |instances| == Instances
    ensures |codes| == Instances
    ensures forall i :: 0 <= i < Instances ==> codes[i] == IllnessCode(instances[i])
  {
    [IllnessCode(instances[0]), IllnessCode(instances[1]), IllnessCode(instances[2]), IllnessCode(instances[3])]
  }

  /** One relative's column: `np.select` over the instance codes, then the
      final `replace(3, 0)`. */
  function RelativeFlag(instances: seq<Cell>): int
    requires |instances| == Instances
  {
    var selected := Select(Conditions(Codes(instances)), SelectValues);
    if selected == 3 then 0 else selected
  }

  /** Some instance of a relative names diabetes. */
  predicate MentionsDiabetes(instances: seq<Cell>) {
    exists i :: 0 <= i < |instances| && instances[i].Some? && Contains(instances[i].value, DiabetesWord)
  }

  /** A relative is flagged exactly when one of the four instances names
      diabetes; "don't know", other illnesses and nulls all end up as 0. */
  lemma RelativeFlagMeaning(instances: seq<Cell>)
    requires |instances| == Instances
    ensures RelativeFlag(instances) == 0 || RelativeFlag(instances) == 1
    ensures RelativeFlag(instances) == 1 <==> MentionsDiabetes(instances)
  {
    var codes := Codes(instances);
    var conds := Conditions(codes);
    // every code is 1, 3 or 0, so one of conditions 0, 4 and 8 holds
    assert conds[0] || conds[4] || conds[8];
    var k := FirstTrue(conds);
    SelectIsFirstTrue(conds, SelectValues);
    FirstTrueOfConditions(codes);
    MentionsDiabetesCodes(instances);
  }

  lemma MentionsDiabetesCodes(instances: seq<Cell>)
    requires |instances| == Instances
    ensures MentionsDiabetes(instances) <==> exists i :: 0 <= i < Instances && Codes(instances)[i] == 1
  {
    var codes := Codes(instances);
    if MentionsDiabetes(instances) {
      var i :| 0 <= i < Instances && instances[i].Some? && Contains(instances[i].value, DiabetesWord);
      assert codes[i] == 1;
    }
  }

  /** With codes drawn from 1, 3 and 0, the first holding condition is one
      of the "1" tests exactly when some code is 1, and its value is 1, 3
      or 0 accordingly. */
  lemma FirstTrueOfConditions(codes: seq<int>)
    requires |codes| == Instances
    requires forall i :: 0 <= i < Instances ==> codes[i] == 0 || codes[i] == 1 || codes[i] == 3
    ensures exists i :: 0 <= i < 3 * Instances && Conditions(codes)[i]
    ensures var k := FirstTrue(Conditions(codes));
            && (SelectValues[k] == 1 <==> exists i :: 0 <= i < Instances && codes[i] == 1)
            && (SelectValues[k] == 0 || SelectValues[k] == 1 || SelectValues[k] == 3)
  {
    var conds := Conditions(codes);
    assert conds[0] || conds[4] || conds[8];
    var k := FirstTrue(conds);
    if exists i :: 0 <= i < Instances && codes[i] == 1 {
      var i :| 0 <= i < Instances && codes[i] == 1;
      assert conds[i];
      assert k <= i;
      assert conds[k] == (codes[k] == 1);
    } else {
      assert k >= 4;
    }
  }

  lemma {:induction false} SelectIsFirstTrue(conditions: seq<bool>, values: seq<int>)
    requires |conditions| == |values|
    requires exists i :: 0 <= i < |conditions| && conditions[i]
    ensures Select(conditions, values) == values[FirstTrue(conditions)]
  {
    var k := FirstTrue(conditions);
  }

  /** Index of the first condition that holds. */
  function FirstTrue(conditions: seq<bool>): (k: nat)
    requires exists i :: 0 <= i < |conditions| && conditions[i]
    ensures k < |conditions| && conditions[k]
    ensures forall j :: 0 <= j < k ==> !conditions[j]
  {
    if conditions[0] then 0
    else
      assert exists i :: 0 <= i < |conditions| - 1 && conditions[1..][i] by {
        var i :| 0 <= i < |conditions| && conditions[i];
        assert conditions[1..][i - 1];
      }
      FirstTrue(conditions[1..]) + 1
  }

  /** One row of the family-history table: the participant and the four
      instance cells of each relative. */
  datatype FamilyRow = FamilyRow(id: int, father: seq<Cell>, mother: seq<Cell>, siblings: seq<Cell>)

  predicate WellFormed(r: FamilyRow) {
    |r.father| == Instances && |r.mother| == Instances && |r.siblings| == Instances
  }

  /** The three columns that survive the reduction. */
  datatype FamilyFlags = FamilyFlags(id: int, father: int, mother: int, siblings: int)

  /** The table's final `fh[1:].replace(3, 0)` also reaches the identifier
      column. */
  function ReplaceThree(v: int): int {
    if v == 3 then 0 else v
  }

  function Flags(r: FamilyRow): FamilyFlags
    requires WellFormed(r)
  {
    FamilyFlags(ReplaceThree(r.id), RelativeFlag(r.father), RelativeFlag(r.mother), RelativeFlag(r.siblings))
  }

  /** `f` is the reduction of `r`: the identifier after `replace(3, 0)`
      and, per relative, 1 exactly when an instance names diabetes, else 0. */
  predicate Describes(f: FamilyFlags, r: FamilyRow) {
    && f.id == ReplaceThree(r.id)
    && (f.father == 1 <==> MentionsDiabetes(r.father)) && (f.father == 0 || f.father == 1)
    && (f.mother == 1 <==> MentionsDiabetes(r.mother)) && (f.mother == 0 || f.mother == 1)
    && (f.siblings == 1 <==> MentionsDiabetes(r.siblings)) && (f.siblings == 0 || f.siblings == 1)
  }

  lemma FlagsDescribe(r: FamilyRow)
    requires WellFormed(r)
    ensures Describes(Flags(r), r)
  {
    RelativeFlagMeaning(r.father);
    RelativeFlagMeaning(r.mother);
    RelativeFlagMeaning(r.siblings);
  }

  /** `pre_family_history` after the cells are read: one row of 0/1 flags
      per input row except the first, which `fh[1:]` drops. */
  function FamilyHistory(rows: seq<FamilyRow>): (flags: seq<FamilyFlags>)
    requires forall i :: 0 <= i < |rows| ==> WellFormed(rows[i])
    ensures |rows| == 0 ==> flags == []
    ensures |rows| > 0 ==> |flags| == |rows| - 1
    ensures forall i :: 0 <= i < |flags| ==> Describes(flags[i], rows[i + 1])
  {
    if |rows| == 0 then []
    else
      var flags := seq(|rows| - 1, i requires 0 <= i < |rows| - 1 => Flags(rows[i + 1]));
      assert forall i :: 0 <= i < |flags| ==> Describes(flags[i], rows[i + 1]) by {
        forall i | 0 <= i < |flags|
          ensures Describes(flags[i], rows[i + 1])
        {
          FlagsDescribe(rows[i + 1]);
        }
      }
      flags
  }
}
