/** The client-side query filters: a rule compares one field with a value,
    a group combines rules and nested groups with one operator and records
    its nesting depth, and an operator entry pairs an operator with the text
    shown for it. */
module Filters {
  import opened Wrappers
  import Text

  /** An operator code. The enumeration names twelve of them, but any
      number may be passed where an operator is expected. */
  type FilterOperate = int

  const And: FilterOperate := 1
  const Or: FilterOperate := 2
  const Equal: FilterOperate := 3
  const NotEqual: FilterOperate := 4
  const Less: FilterOperate := 5
  const LessOrEqual: FilterOperate := 6
  const Greater: FilterOperate := 7
  const GreaterOrEqual: FilterOperate := 8
  const StartsWith: FilterOperate := 9
  const EndsWith: FilterOperate := 10
  const Contains: FilterOperate := 11
  const NotContains: FilterOperate := 12

  /** One condition; it is only ever set up by its constructor. */
  datatype FilterRule = FilterRule(field: string, value: string, operate: FilterOperate)

  /** The rule constructor, whose operator defaults to `Equal`. */
  function NewFilterRule(field: string, value: string, operate: FilterOperate := Equal): (r: FilterRule)
    ensures r.field == field && r.value == value && r.operate == operate
  {
    FilterRule(field, value, operate)
  }

  lemma FilterRuleDefaultsToEqual(field: string, value: string)
    ensures NewFilterRule(field, value) == FilterRule(field, value, Equal)
    ensures NewFilterRule(field, value).operate == Equal
  {
  }

  /** The value of a group tree: its rules, operator, level and subgroups. */
  datatype GroupTree = GroupTree(rules: seq<FilterRule>, operate: FilterOperate, level: int, groups: seq<GroupTree>)

  /** The level a group keeps when `Init` reaches it holding `level`: an
      unset (zero) level becomes 1. */
  function Normalized(level: int): int
  {
    if level == 0 then 1 else level
  }

  /** The tree `Init` leaves behind when it reaches a group `t` whose level
      is `reached` at that moment; each subgroup is reached holding its
      parent's final level plus one. */
  function Relevel(t: GroupTree, reached: int): GroupTree
    decreases t
  {
    var l := Normalized(reached);
    GroupTree(t.rules, t.operate, l,
      seq(|t.groups|, i requires 0 <= i < |t.groups| => Relevel(t.groups[i], l + 1)))
  }

  /** One subgroup of a renumbered tree, and the level the renumbering
      ignores. */
  lemma RelevelParts(t: GroupTree, reached: int)
    ensures Relevel(t, reached).rules == t.rules && Relevel(t, reached).operate == t.operate
    ensures Relevel(t, reached).level == Normalized(reached)
    ensures |Relevel(t, reached).groups| == |t.groups|
    ensures forall j :: 0 <= j < |t.groups| ==>
      Relevel(t, reached).groups[j] == Relevel(t.groups[j], Normalized(reached) + 1)
  {
  }

  lemma RelevelIgnoresLevel(t: GroupTree, l: int, reached: int)
    ensures Relevel(t.(level := l), reached) == Relevel(t, reached)
  {
  }

  /** `a` and `b` differ at most in their levels. */
  predicate SameShape(a: GroupTree, b: GroupTree)
    decreases a
  {
    a.rules == b.rules && a.operate == b.operate && |a.groups| == |b.groups| &&
    forall i :: 0 <= i < |a.groups| ==> SameShape(a.groups[i], b.groups[i])
  }

  /** Every group of `t` at depth d below its root has level `base + d`. */
  predicate LevelsFrom(t: GroupTree, base: int)
    decreases t
  {
    t.level == base && forall i :: 0 <= i < |t.groups| ==> LevelsFrom(t.groups[i], base + 1)
  }

  /** `Init` changes levels only: rules, operators and the shape of the tree
      stay as they were. */
  lemma {:induction false} RelevelSameShape(t: GroupTree, reached: int)
    ensures SameShape(Relevel(t, reached), t)
    decreases t
  {
    var r := Relevel(t, reached);
    forall i | 0 <= i < |t.groups|
      ensures SameShape(r.groups[i], t.groups[i])
    {
      RelevelSameShape(t.groups[i], Normalized(reached) + 1);
    }
  }

  /** When `Init` starts from a level that is not negative, the root ends
      with level 1 if it was unset and its own level otherwise, and each
      group d levels down ends with the root's level plus d. */
  lemma {:induction false} RelevelNumbersDepth(t: GroupTree, reached: int)
    requires reached >= 0
    ensures Relevel(t, reached).level == if reached == 0 then 1 else reached
    ensures LevelsFrom(Relevel(t, reached), Normalized(reached))
    decreases t
  {
    var r := Relevel(t, reached);
    forall i | 0 <= i < |t.groups|
      ensures LevelsFrom(r.groups[i], Normalized(reached) + 1)
    {
      RelevelNumbersDepth(t.groups[i], Normalized(reached) + 1);
    }
  }

  /** Running `Init` on a tree it has already numbered changes nothing. */
  lemma {:induction false} RelevelIdempotent(t: GroupTree, reached: int)
    ensures Relevel(Relevel(t, reached), Relevel(t, reached).level) == Relevel(t, reached)
    decreases t
  {
    var r := Relevel(t, reached);
    var rr := Relevel(r, r.level);
    forall i | 0 <= i < |t.groups|
      ensures rr.groups[i] == r.groups[i]
    {
      RelevelIdempotent(t.groups[i], Normalized(reached) + 1);
    }
  }

  /** A negative level is kept, and a subgroup that would get level 0 is
      reset to 1: under a root at -1 the levels run -1, 1, 2. */
  lemma NegativeLevelSkipsZero(leaf: GroupTree)
    ensures var t := GroupTree([], And, -1, [GroupTree([], And, 0, [leaf])]);
      var r := Relevel(t, -1);
      r.level == -1 && |r.groups| == 1 && r.groups[0].level == 1 &&
      |r.groups[0].groups| == 1 && r.groups[0].groups[0].level == 2
  {
    var t := GroupTree([], And, -1, [GroupTree([], And, 0, [leaf])]);
    var r := Relevel(t, -1);
    assert r.groups[0] == Relevel(t.groups[0], 0);
    assert r.groups[0].groups[0] == Relevel(leaf, 2);
  }

  /** The groups below any of `gs`. */
  ghost function ReprOf(gs: seq<FilterGroup>): set<FilterGroup>
    reads (set g | g in gs)`Repr
  {
    if gs == [] then {} else gs[0].Repr + ReprOf(gs[1..])
  }

  /** A group of the filter tree. `Init` overwrites the `level` fields of a
      group and of all groups below it in place. */
  class FilterGroup {
    var rules: seq<FilterRule>
    var operate: FilterOperate
    var groups: seq<FilterGroup>
    /** 0 stands for an unset level as well as for 0. */
    var level: int

    /** The value of the tree rooted here. */
    ghost var tree: GroupTree
    /** The groups of the tree rooted here. */
    ghost var Repr: set<FilterGroup>

    /** The groups below form a tree (no group is reachable twice and none
        lies below itself) and `tree` is its value. */
    ghost predicate Valid()
      reads this, Repr
      ensures Valid() ==> this in Repr
      decreases Repr
    {
      this in Repr &&
      tree.rules == rules && tree.operate == operate && tree.level == level &&
      |tree.groups| == |groups| &&
      (forall i :: 0 <= i < |groups| ==>
        groups[i] in Repr && groups[i].Repr <= Repr && this !in groups[i].Repr &&
        groups[i].tree == tree.groups[i] && groups[i].Valid()) &&
      (forall i, j :: 0 <= i < |groups| && 0 <= j < |groups| && i != j ==> groups[i].Repr !! groups[j].Repr)
    }

    /** `Repr` holds this group, the groups below its subgroups, and
        nothing else. It reads no level, so renumbering keeps it. */
    ghost predicate Covered()
      reads this`Repr, this`groups, Repr`Repr, Repr`groups
      decreases Repr
    {
      this in Repr &&
      (forall i :: 0 <= i < |groups| ==>
        groups[i] in Repr && groups[i].Repr <= Repr && this !in groups[i].Repr && groups[i].Covered()) &&
      Repr <= {this} + ReprOf(groups)
    }

    /** A new group: no rules, no subgroups, operator `And`, level 1. */
    constructor ()
      ensures Valid() && Covered() && fresh(Repr) && Repr == {this}
      ensures rules == [] && groups == [] && operate == And && level == 1
      ensures tree == GroupTree([], And, 1, [])
    {
      rules := [];
      operate := And;
      groups := [];
      level := 1;
      tree := GroupTree([], And, 1, []);
      Repr := {this};
    }

    /** `group.Level = l`, as `Init` does to each subgroup before numbering
        below it. */
    method SetLevel(l: int)
      requires Valid()
      modifies this`level, this`tree
      ensures Valid()
      ensures level == l && tree == old(tree).(level := l)
    {
      level := l;
      tree := tree.(level := l);
    }

    /** `FilterGroup.Init(this)`: set an unset level to 1, then give each
        subgroup its parent's level plus one and number below it. Only the
        `level` fields of the groups of this tree are written, so rules,
        operators and the tree's shape stay as they were. */
    method Init()
      requires Valid() && Covered()
      modifies Repr`level, Repr`tree
      ensures Valid() && Covered()
      ensures tree == Relevel(old(tree), old(level))
    {
      Renumber();
    }

    /** The recursion of `Init`, for a footprint that may hold more than
        the tree's groups; `Covered` plays no part in it. */
    method Renumber()
      requires Valid()
      modifies Repr`level, Repr`tree
      ensures Valid()
      ensures tree == Relevel(old(tree), old(level))
      decreases Repr, 1
    {
      if level == 0 {
        level := 1;
      }
      RelevelParts(old(tree), old(level));
      tree := Relevel(old(tree), old(level));
      var i := 0;
      while i < |groups|
        invariant 0 <= i <= |groups|
        invariant level == Normalized(old(level)) && this in Repr
        invariant tree == Relevel(old(tree), old(level))
        invariant forall j :: 0 <= j < |groups| ==>
          groups[j] in Repr && groups[j].Repr <= Repr && this !in groups[j].Repr && groups[j].Valid() &&
          groups[j].tree == if j < i then tree.groups[j] else old(tree).groups[j]
        invariant forall j, k :: 0 <= j < |groups| && 0 <= k < |groups| && j != k ==> groups[j].Repr !! groups[k].Repr
      {
        InitSubgroup(i);
        i := i + 1;
      }
    }

    /** One step of the `forEach` in `Init`: subgroup `i` gets this group's
        level plus one and is numbered below. */
    method InitSubgroup(i: nat)
      requires i < |groups| && this in Repr
      requires forall j :: 0 <= j < |groups| ==>
        groups[j] in Repr && groups[j].Repr <= Repr && this !in groups[j].Repr && groups[j].Valid()
      requires forall j, k :: 0 <= j < |groups| && 0 <= k < |groups| && j != k ==> groups[j].Repr !! groups[k].Repr
      modifies groups[i].Repr`level, groups[i].Repr`tree
      ensures groups[i].Valid()
      ensures forall j :: 0 <= j < |groups| && j != i ==> unchanged(groups[j].Repr)
      ensures groups[i].tree == Relevel(old(groups[i].tree), level + 1)
      decreases Repr, 0
    {
      var sub := groups[i];
      ghost var before := sub.tree;
      sub.SetLevel(level + 1);
      sub.Renumber();
      RelevelIgnoresLevel(before, level + 1, level + 1);
    }
  }

  /** The label the operator-entry constructor chooses for a code. */
  function OperateLabel(operate: FilterOperate): string
  {
    match operate
    case 1 => "并且"
    case 2 => "或者"
    case 3 => "等于"
    case 4 => "不等于"
    case 5 => "小于"
    case 6 => "小于等于"
    case 7 => "大于"
    case 8 => "大于等于"
    case 9 => "开始于"
    case 10 => "结束于"
    case 11 => "包含"
    case 12 => "不包含"
    case _ => "未知操作"
  }

  /** The codes 1 to 12 get twelve different labels, none of them the label
      every other code gets. */
  lemma OperateLabelsDistinct(a: FilterOperate, b: FilterOperate)
    requires 1 <= a <= 12 && 1 <= b <= 12 && a != b
    ensures OperateLabel(a) != OperateLabel(b)
    ensures OperateLabel(a) != "未知操作"
  {
  }

  lemma OperateLabelUnknown(operate: FilterOperate)
    requires operate < 1 || operate > 12
    ensures OperateLabel(operate) == "未知操作"
  {
  }

  /** An operator with its display text; only ever set up by its constructor. */
  datatype FilterOperateEntry = FilterOperateEntry(operate: FilterOperate, display: string)

  /** The code a display text starts with: the number before its first '.'. */
  function DisplayedCode(display: string): Option<int>
  {
    Text.ParseInt(Text.Split(display, '.')[0])
  }

  /** The entry constructor: the display is the decimal code, a '.', and the
      operator's label, so the display names the code it was built for. */
  function NewFilterOperateEntry(operate: FilterOperate): (e: FilterOperateEntry)
    ensures e.operate == operate
    ensures e.display == Text.IntToString(operate) + "." + OperateLabel(operate)
    ensures DisplayedCode(e.display) == Some(operate)
  {
    var text := OperateLabel(operate);
    var code := Text.IntToString(operate);
    var rest := "." + text;
    assert code + "." + text == code + rest;
    Text.SplitPrefix(code, rest, '.');
    assert rest[0] == '.' && rest[1..] == text;
    assert Text.Split(rest, '.') == [""] + Text.Split(text, '.');
    assert code + "" == code;
    Text.ParseIntToString(operate);
    FilterOperateEntry(operate, code + "." + text)
  }

  /** Entries for different codes never display alike. */
  lemma EntryDisplayInjective(a: FilterOperate, b: FilterOperate)
    requires a != b
    ensures NewFilterOperateEntry(a).display != NewFilterOperateEntry(b).display
  {
  }
}
