/** The grouping table of github.js and its first-match lookup `find_group`. */
module Groups {
  import opened Wrappers

  /** One rule of the table: the word `text` for every count in the inclusive range [min, max]. */
  datatype Group = Group(text: string, min: int, max: int)

  /** Upper bound of the last rule, 0x20000000000000 = 2^53. */
  const TopBound: int := 0x20000000000000

  /** `github.groups`, in table order. */
  const Table: seq<Group> := [
    Group("couple", 2, 2),
    Group("few", 3, 4),
    Group("bunch of", 5, 7),
    Group("lot of", 8, 12),
    Group("ton of", 13, TopBound)
  ]

  predicate Covers(g: Group, value: int)
  {
    g.min <= value <= g.max
  }

  /** The label of the first rule of `groups` that covers `value`, if any. */
  function FirstMatch(groups: seq<Group>, value: int): Option<string>
  {
    if groups == [] then None
    else if Covers(groups[0], value) then Some(groups[0].text)
    else FirstMatch(groups[1..], value)
  }

  /** Every rule is a non-empty range and each one starts right after the previous one ends. */
  ghost predicate Contiguous(groups: seq<Group>)
  {
    && (forall i :: 0 <= i < |groups| ==> groups[i].min <= groups[i].max)
    && (forall i :: 0 < i < |groups| ==> groups[i].min == groups[i - 1].max + 1)
  }

  /** Every rule ends before any later rule begins. */
  ghost predicate Disjoint(groups: seq<Group>)
  {
    forall i, j :: 0 <= i < j < |groups| ==> groups[i].max < groups[j].min
  }

  lemma {:induction false} ContiguousBelow(groups: seq<Group>, i: nat, j: nat)
    requires Contiguous(groups)
    requires i < j < |groups|
    ensures groups[i].max < groups[j].min
    decreases j
  {
    if i + 1 < j {
      ContiguousBelow(groups, i, j - 1);
    }
  }

  /** Contiguous ranges are pairwise disjoint. */
  lemma ContiguousIsDisjoint(groups: seq<Group>)
    requires Contiguous(groups)
    ensures Disjoint(groups)
  {
    forall i, j | 0 <= i < j < |groups|
      ensures groups[i].max < groups[j].min
    {
      ContiguousBelow(groups, i, j);
    }
  }

  /** The table's ranges are non-empty, contiguous and therefore pairwise disjoint. */
  lemma TableIsDisjoint()
    ensures Contiguous(Table)
    ensures Disjoint(Table)
  {
    ContiguousIsDisjoint(Table);
  }

  /** No label is returned exactly when no rule covers the value. */
  lemma {:induction false} FirstMatchNone(groups: seq<Group>, value: int)
    ensures FirstMatch(groups, value).None? <==> forall i :: 0 <= i < |groups| ==> !Covers(groups[i], value)
  {
    if groups != [] {
      FirstMatchNone(groups[1..], value);
      assert forall i :: 1 <= i < |groups| ==> groups[i] == groups[1..][i - 1];
    }
  }

  /** The first covering rule's label is returned: nothing before it covers the value. */
  lemma {:induction false} FirstMatchIsFirst(groups: seq<Group>, value: int)
    requires FirstMatch(groups, value).Some?
    ensures exists i :: 0 <= i < |groups| && Covers(groups[i], value)
                   && FirstMatch(groups, value) == Some(groups[i].text)
                   && forall j :: 0 <= j < i ==> !Covers(groups[j], value)
  {
    if !Covers(groups[0], value) {
      FirstMatchIsFirst(groups[1..], value);
      var k :| 0 <= k < |groups[1..]| && Covers(groups[1..][k], value)
               && FirstMatch(groups[1..], value) == Some(groups[1..][k].text)
               && forall j :: 0 <= j < k ==> !Covers(groups[1..][j], value);
      assert forall j :: 0 <= j < k + 1 ==> !Covers(groups[j], value) by {
        forall j | 0 < j < k + 1 ensures !Covers(groups[j], value) {
          assert groups[j] == groups[1..][j - 1];
        }
      }
      assert Covers(groups[k + 1], value) && FirstMatch(groups, value) == Some(groups[k + 1].text);
    } else {
      assert Covers(groups[0], value) && FirstMatch(groups, value) == Some(groups[0].text);
    }
  }

  /** In a disjoint table the first match is the only match: any covering rule's label is returned. */
  lemma {:induction false} FirstMatchIsUnique(groups: seq<Group>, value: int, i: nat)
    requires Disjoint(groups)
    requires i < |groups| && Covers(groups[i], value)
    ensures FirstMatch(groups, value) == Some(groups[i].text)
  {
    if i > 0 {
      assert groups[0].max < groups[i].min;
      assert Disjoint(groups[1..]) by {
        forall a, b | 0 <= a < b < |groups[1..]|
          ensures groups[1..][a].max < groups[1..][b].min
        {
          assert groups[1..][a] == groups[a + 1] && groups[1..][b] == groups[b + 1];
        }
      }
      assert groups[1..][i - 1] == groups[i];
      FirstMatchIsUnique(groups[1..], value, i - 1);
    }
  }

  /** The lookup `find_group(value)` over the table: couple, few, bunch of, lot of, ton of, or nothing. */
  lemma TableLabels(value: int)
    ensures FirstMatch(Table, value) ==
      if value == 2 then Some("couple")
      else if 3 <= value <= 4 then Some("few")
      else if 5 <= value <= 7 then Some("bunch of")
      else if 8 <= value <= 12 then Some("lot of")
      else if 13 <= value <= TopBound then Some("ton of")
      else None
  {
    TableIsDisjoint();
    if value < 2 || value > TopBound {
      FirstMatchNone(Table, value);
    } else if value == 2 {
      FirstMatchIsUnique(Table, value, 0);
    } else if value <= 4 {
      FirstMatchIsUnique(Table, value, 1);
    } else if value <= 7 {
      FirstMatchIsUnique(Table, value, 2);
    } else if value <= 12 {
      FirstMatchIsUnique(Table, value, 3);
    } else {
      FirstMatchIsUnique(Table, value, 4);
    }
  }

  /** `find_group`: scan the table in order and return the label of the first rule covering `value`. */
  method FindGroup(value: int) returns (word: Option<string>)
    ensures word == FirstMatch(Table, value)
    ensures word.Some? <==> 2 <= value <= TopBound
  {
    var i, l := 0, |Table|;
    while i < l
      invariant 0 <= i <= l == |Table|
      invariant FirstMatch(Table[i..], value) == FirstMatch(Table, value)
    {
      var group := Table[i];
      if value >= group.min && value <= group.max {
        return Some(group.text);
      }
      assert Table[i..][1..] == Table[i + 1..];
      i := i + 1;
    }
    TableLabels(value);
    return None;
  }
}
