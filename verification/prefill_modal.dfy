/** The pure logic of the source picker (app/src/components/PrefillModal.tsx):
    the global defaults, the options they become, the merge with the upstream
    options, grouping by label prefix, search filtering, the group ordering,
    expansion toggling, the reset on close and the Select button. */
module PrefillModal {
  import opened Wrappers
  import opened GraphTypes
  import opened Collections
  import opened Strings

  /** The group that holds the global options and is always listed first. */
  const GlobalGroup: string := "Global values"

  /** `GLOBAL_VALUES`: the global namespace, in key order. */
  const GlobalValues: Namespace := [
    ("button", Bool(false)),
    ("dynamic_checkbox_group", StrList(["one", "two"])),
    ("dynamic_object", Str("This is an object")),
    ("email", Str("karanlvm123@gmail.com")),
    ("id", Str("mydogranovermykeyboard")),
    ("multi_select", StrList(["random"])),
    ("name", Str("Karan")),
    ("notes", Str("Oh look, Global Prefill works :)"))
  ]

  lemma GlobalValuesDistinct()
    ensures DistinctKeys(GlobalValues)
    ensures |GlobalValues| == 8 && GlobalValues[0].0 == "button"
  {
  }

  // ---------------------------------------------------------------------------
  // Options

  function OptionKey(o: SourceOption): string { o.key }

  /** `opt.label.split(".")[0]`: the group an option is listed under. */
  function GroupName(o: SourceOption): string { BeforeFirstDot(o.displayLabel) }

  /** The option offered for one global field. */
  function GlobalOption(field: FieldName): (r: SourceOption)
    ensures r.sourceFormId == GlobalSourceId && r.sourceField == field
    ensures r.key == Dotted(GlobalSourceId, field) && r.displayLabel == Dotted(GlobalGroup, field)
    ensures GroupName(r) == GlobalGroup
    ensures r.key != ""
  {
    BeforeFirstDotOfDotted(GlobalGroup, field);
    SourceOption(Dotted(GlobalSourceId, field), Dotted(GlobalGroup, field), GlobalSourceId, field)
  }

  /** Two global options are the same option exactly when their fields are. */
  lemma GlobalOptionKeyInjective(f1: FieldName, f2: FieldName)
    ensures GlobalOption(f1).key == GlobalOption(f2).key <==> f1 == f2
  {
    if GlobalOption(f1).key == GlobalOption(f2).key {
      DottedInjective(GlobalSourceId, f1, GlobalSourceId, f2);
    }
  }

  /** `globalOptions`: one option per key of the namespace, in key order. */
  function GlobalOptions(globals: Namespace): (r: seq<SourceOption>)
    ensures |r| == |globals|
    ensures forall i :: 0 <= i < |r| ==>
      r[i].sourceFormId == GlobalSourceId && r[i].sourceField == globals[i].0 && GroupName(r[i]) == GlobalGroup
    ensures forall i :: 0 <= i < |r| ==>
      r[i].key == Dotted(GlobalSourceId, globals[i].0) && r[i].displayLabel == Dotted(GlobalGroup, globals[i].0)
    ensures forall i :: 0 <= i < |r| ==> r[i] == GlobalOption(globals[i].0)
  {
    seq(|globals|, i requires 0 <= i < |globals| => GlobalOption(globals[i].0))
  }

  /** Distinct namespace keys give distinct option keys. */
  lemma GlobalOptionsUniqueKeys(globals: Namespace)
    requires DistinctKeys(globals)
    ensures UniqueKeys(GlobalOptions(globals), OptionKey)
  {
    var g := GlobalOptions(globals);
    forall i, j | 0 <= i < j < |g| ensures g[i].key != g[j].key {
      GlobalOptionKeyInjective(globals[i].0, globals[j].0);
    }
  }

  /** `allOptions`: the global options followed by the passed-in ones, keeping
      the first option of each key. */
  function AllOptions(globals: Namespace, options: seq<SourceOption>): (r: seq<SourceOption>)
    ensures UniqueKeys(r, OptionKey)
    ensures forall o :: o in r ==> o in GlobalOptions(globals) || o in options
    ensures KeysOf(r, OptionKey) == KeysOf(GlobalOptions(globals), OptionKey) + KeysOf(options, OptionKey)
  {
    DedupBy(GlobalOptions(globals) + options, OptionKey)
  }

  /** Every global option survives, first and in key order; a passed-in option
      survives only when no global option and no earlier passed-in option has its key. */
  lemma {:induction false} AllOptionsGlobalsFirst(globals: Namespace, options: seq<SourceOption>)
    requires DistinctKeys(globals)
    ensures |AllOptions(globals, options)| >= |globals|
    ensures AllOptions(globals, options)[..|globals|] == GlobalOptions(globals)
    ensures AllOptions(globals, options)[|globals|..]
         == DedupFrom(options, OptionKey, KeysOf(GlobalOptions(globals), OptionKey))
  {
    var g := GlobalOptions(globals);
    DedupFromAppend(g, options, OptionKey, {});
    GlobalOptionsUniqueKeys(globals);
    DedupFromUnique(g, OptionKey, {});
    assert {} + KeysOf(g, OptionKey) == KeysOf(g, OptionKey);
  }

  /** Each kept option is the first option of its key in the merged list. */
  lemma AllOptionsFirstOfKey(globals: Namespace, options: seq<SourceOption>)
    ensures forall o :: o in AllOptions(globals, options) ==>
      IsFirstOfKey(GlobalOptions(globals) + options, OptionKey, o)
  {
    DedupFromKeepsFirst(GlobalOptions(globals) + options, OptionKey, {});
  }

  /** The kept options keep their relative order: they are listed in the order
      in which their keys first occur in the merged list. */
  lemma AllOptionsKeepsOrder(globals: Namespace, options: seq<SourceOption>)
    ensures var xs, r := GlobalOptions(globals) + options, AllOptions(globals, options);
            forall a, b :: 0 <= a < b < |r| ==>
              FirstIndexOfKey(xs, OptionKey, OptionKey(r[a])) < FirstIndexOfKey(xs, OptionKey, OptionKey(r[b]))
  {
    var xs := GlobalOptions(globals) + options;
    assert AllOptions(globals, options) == DedupFrom(xs, OptionKey, {});
    DedupFromKeepsOrder(xs, OptionKey, {});
  }

  /** Passing in a list that already starts with the global options changes
      nothing: the repeated globals are all dropped. */
  lemma AllOptionsAbsorbsGlobals(globals: Namespace, upstream: seq<SourceOption>)
    ensures AllOptions(globals, GlobalOptions(globals) + upstream) == AllOptions(globals, upstream)
  {
    DedupByAbsorbsPrefix(GlobalOptions(globals), upstream, OptionKey);
  }

  // ---------------------------------------------------------------------------
  // Groups

  /** `grouped`: the options under each group name, in list order. */
  function Grouped(all: seq<SourceOption>): (m: map<string, seq<SourceOption>>)
    ensures m.Keys == KeysOf(all, GroupName)
    ensures forall g, o :: o in Lookup(m, g) <==> o in all && GroupName(o) == g
  {
    var m := GroupBy(all, GroupName, Identity);
    assert forall g :: Lookup(m, g) == Collect(all, GroupName, Identity, g);
    m
  }

  /** Each group lists its options in their order in `all`: it is the filter of
      `all` on the group name. */
  lemma GroupedKeepsOrder(all: seq<SourceOption>, g: string)
    ensures Lookup(Grouped(all), g) == Filter(all, o => GroupName(o) == g)
  {
    CollectIsFilter(all, GroupName, g, o => GroupName(o) == g);
  }

  /** The group names in order of first appearance (`Object.entries` order). */
  function GroupNames(all: seq<SourceOption>): (r: seq<string>)
    ensures Distinct(r)
    ensures forall g :: g in r <==> g in KeysOf(all, GroupName)
  {
    var d := DedupBy(all, GroupName);
    var r := seq(|d|, i requires 0 <= i < |d| => GroupName(d[i]));
    forall g | g in KeysOf(all, GroupName) ensures g in r {
      assert g in KeysOf(d, GroupName);
      var o :| o in d && GroupName(o) == g;
      var i :| 0 <= i < |d| && d[i] == o;
      assert r[i] == g;
    }
    r
  }

  /** `search.trim().toLowerCase()`. */
  function Query(search: string): string { ToLower(Trim(search)) }

  /** The option's label contains the query, ignoring case. */
  predicate Matches(o: SourceOption, q: string) {
    Contains(ToLower(o.displayLabel), q)
  }

  lemma EmptyQueryMatches(o: SourceOption)
    ensures Matches(o, "")
  {
    assert OccursAt(ToLower(o.displayLabel), "", 0);
  }

  /** The options of one group that the search keeps: all of them for an empty
      query, otherwise those whose label contains it. */
  function Visible(opts: seq<SourceOption>, q: string): (r: seq<SourceOption>)
    ensures forall o :: o in r <==> o in opts && Matches(o, q)
  {
    if q == "" then
      forall o | o in opts ensures Matches(o, q) { EmptyQueryMatches(o); }
      opts
    else Filter(opts, o => Matches(o, q))
  }

  type Entry = (string, seq<SourceOption>)

  predicate NonEmpty(e: Entry) { e.1 != [] }

  /** The comparator: the global group before everything, the rest by name. */
  predicate GroupBefore(a: Entry, b: Entry) {
    a.0 == GlobalGroup || (b.0 != GlobalGroup && Le(a.0, b.0))
  }

  lemma GroupBeforeTotalPreorder()
    ensures TotalPreorder(GroupBefore)
  {
    forall a: Entry, b: Entry ensures GroupBefore(a, b) || GroupBefore(b, a) {
      LeTotal(a.0, b.0);
    }
    forall a: Entry, b: Entry, c: Entry | GroupBefore(a, b) && GroupBefore(b, c)
      ensures GroupBefore(a, c)
    {
      if a.0 != GlobalGroup {
        LeTransitive(a.0, b.0, c.0);
      }
    }
  }

  /** Each group paired with its visible options, before dropping and sorting. */
  function RawEntries(all: seq<SourceOption>, q: string): seq<Entry> {
    var m := Grouped(all);
    var names := GroupNames(all);
    seq(|names|, i requires 0 <= i < |names| => (names[i], Visible(Lookup(m, names[i]), q)))
  }

  /** The entry of a group: its name and its visible options. */
  predicate IsEntry(all: seq<SourceOption>, q: string, e: Entry) {
    e.0 in KeysOf(all, GroupName) && e.1 == Visible(Lookup(Grouped(all), e.0), q)
  }

  /** One entry per group, and nothing else. */
  lemma RawEntriesSpec(all: seq<SourceOption>, q: string)
    ensures Distinct(RawEntries(all, q))
    ensures forall e :: e in RawEntries(all, q) <==> IsEntry(all, q, e)
  {
    var names := GroupNames(all);
    var r := RawEntries(all, q);
    assert |r| == |names|;
    forall i | 0 <= i < |r| ensures r[i].0 == names[i] && IsEntry(all, q, r[i]) {
    }
    forall e: Entry | IsEntry(all, q, e) ensures e in r {
      var i :| 0 <= i < |names| && names[i] == e.0;
      assert r[i] == e;
    }
  }

  /** `groupEntries`: the groups with at least one visible option, the global
      group first and the others by name. */
  function GroupEntries(all: seq<SourceOption>, search: string): (r: seq<Entry>)
    ensures multiset(r) == multiset(Filter(RawEntries(all, Query(search)), NonEmpty))
  {
    SortBy(Filter(RawEntries(all, Query(search)), NonEmpty), GroupBefore)
  }

  /** The listed entries are exactly the entries of groups with a visible option. */
  lemma GroupEntriesMembership(all: seq<SourceOption>, search: string)
    ensures forall e :: e in GroupEntries(all, search) <==> IsEntry(all, Query(search), e) && e.1 != []
  {
    var q := Query(search);
    SortFilterMembers(RawEntries(all, q), NonEmpty, GroupBefore);
    RawEntriesSpec(all, q);
  }

  /** A listed group shows exactly its options that match the search. */
  lemma GroupEntriesContents(all: seq<SourceOption>, search: string)
    ensures forall e :: e in GroupEntries(all, search) ==> e.1 != []
    ensures forall e, o :: e in GroupEntries(all, search) ==>
      (o in e.1 <==> o in all && GroupName(o) == e.0 && Matches(o, Query(search)))
  {
    GroupEntriesMembership(all, search);
  }

  /** A group with an option that matches the search is listed. */
  lemma GroupListed(all: seq<SourceOption>, search: string, o: SourceOption)
    requires o in all && Matches(o, Query(search))
    ensures (GroupName(o), Visible(Lookup(Grouped(all), GroupName(o)), Query(search))) in GroupEntries(all, search)
  {
    var q := Query(search);
    var e := (GroupName(o), Visible(Lookup(Grouped(all), GroupName(o)), q));
    assert o in e.1;
    assert GroupName(o) in KeysOf(all, GroupName);
    assert IsEntry(all, q, e) && e.1 != [];
    GroupEntriesMembership(all, search);
  }

  /** No group is listed twice. */
  lemma GroupEntriesDistinctNames(all: seq<SourceOption>, search: string)
    ensures forall i, j :: 0 <= i < j < |GroupEntries(all, search)| ==>
      GroupEntries(all, search)[i].0 != GroupEntries(all, search)[j].0
  {
    var q := Query(search);
    var raw := Filter(RawEntries(all, q), NonEmpty);
    var r := GroupEntries(all, search);
    RawEntriesSpec(all, q);
    FilterDistinct(RawEntries(all, q), NonEmpty);
    DistinctPermutation(raw, r);
    GroupEntriesMembership(all, search);
    forall i, j | 0 <= i < j < |r| ensures r[i].0 != r[j].0 {
      assert r[i] in r && r[j] in r;
      assert IsEntry(all, q, r[i]) && IsEntry(all, q, r[j]);
    }
  }

  /** What sortedness under the comparator means for distinct group names. */
  lemma SortedEntriesOrder(r: seq<Entry>)
    requires SortedBy(r, GroupBefore)
    requires forall i, j :: 0 <= i < j < |r| ==> r[i].0 != r[j].0
    ensures forall j :: 0 < j < |r| ==> r[j].0 != GlobalGroup
    ensures forall i, j :: 0 <= i < j < |r| ==> r[i].0 == GlobalGroup || Le(r[i].0, r[j].0)
  {
    forall j | 0 < j < |r| ensures r[j].0 != GlobalGroup {
      assert GroupBefore(r[0], r[j]);
    }
  }

  /** The comparator ties two entries only when they name the same group. */
  lemma GroupBeforeAntisymmetric(a: Entry, b: Entry)
    requires GroupBefore(a, b) && GroupBefore(b, a)
    ensures a.0 == b.0
  {
    if a.0 != GlobalGroup && b.0 != GlobalGroup {
      LeAntisymmetric(a.0, b.0);
    }
  }

  /** Two comparator-sorted arrangements of the same entries with distinct group
      names start with the same entry. */
  lemma SortedEntriesSameHead(r1: seq<Entry>, r2: seq<Entry>)
    requires SortedBy(r1, GroupBefore) && SortedBy(r2, GroupBefore)
    requires multiset(r1) == multiset(r2)
    requires forall i, j :: 0 <= i < j < |r1| ==> r1[i].0 != r1[j].0
    requires r1 != [] && r2 != []
    ensures r1[0] == r2[0]
  {
    var a, b := r1[0], r2[0];
    assert b in multiset(r1) && a in multiset(r2);
    var k :| 0 <= k < |r1| && r1[k] == b;
    var m :| 0 <= m < |r2| && r2[m] == a;
    if k > 0 && m > 0 {
      assert GroupBefore(a, b) && GroupBefore(b, a);
      GroupBeforeAntisymmetric(a, b);
    }
  }

  /** Two comparator-sorted arrangements of the same entries with distinct group
      names are the same list. */
  lemma {:induction false} SortedEntriesUnique(r1: seq<Entry>, r2: seq<Entry>)
    requires SortedBy(r1, GroupBefore) && SortedBy(r2, GroupBefore)
    requires multiset(r1) == multiset(r2)
    requires forall i, j :: 0 <= i < j < |r1| ==> r1[i].0 != r1[j].0
    ensures r1 == r2
    decreases |r1|
  {
    assert |r1| == |multiset(r1)| == |multiset(r2)| == |r2|;
    if r1 != [] {
      SortedEntriesSameHead(r1, r2);
      MultisetSameTails(r1, r2);
      SortedTail(r1, GroupBefore);
      SortedTail(r2, GroupBefore);
      var t1 := r1[1..];
      forall i, j | 0 <= i < j < |t1| ensures t1[i].0 != t1[j].0 {
        assert t1[i] == r1[i + 1] && t1[j] == r1[j + 1];
      }
      SortedEntriesUnique(t1, r2[1..]);
      assert r1 == [r1[0]] + t1 && r2 == [r2[0]] + r2[1..];
    }
  }

  /** The listed order does not depend on how the sort breaks ties: any
      arrangement of the listed entries in comparator order is the listed one. */
  lemma GroupEntriesUnique(all: seq<SourceOption>, search: string, r: seq<Entry>)
    requires SortedBy(r, GroupBefore)
    requires multiset(r) == multiset(GroupEntries(all, search))
    ensures r == GroupEntries(all, search)
  {
    GroupBeforeTotalPreorder();
    SortBySorted(Filter(RawEntries(all, Query(search)), NonEmpty), GroupBefore);
    GroupEntriesDistinctNames(all, search);
    SortedEntriesUnique(GroupEntries(all, search), r);
  }

  /** The global group, when listed, comes first; the other groups follow in
      ascending order of name. */
  lemma GroupEntriesOrdered(all: seq<SourceOption>, search: string)
    ensures forall j :: 0 < j < |GroupEntries(all, search)| ==>
      GroupEntries(all, search)[j].0 != GlobalGroup
    ensures forall i, j :: 0 <= i < j < |GroupEntries(all, search)| ==>
      GroupEntries(all, search)[i].0 == GlobalGroup
      || Le(GroupEntries(all, search)[i].0, GroupEntries(all, search)[j].0)
  {
    GroupBeforeTotalPreorder();
    SortBySorted(Filter(RawEntries(all, Query(search)), NonEmpty), GroupBefore);
    GroupEntriesDistinctNames(all, search);
    SortedEntriesOrder(GroupEntries(all, search));
  }

  /** With a blank search every group is listed with all of its options. */
  lemma GroupEntriesBlankSearch(all: seq<SourceOption>, search: string)
    requires Trim(search) == ""
    ensures forall g :: g in KeysOf(all, GroupName) ==> (g, Lookup(Grouped(all), g)) in GroupEntries(all, search)
  {
    assert Query(search) == "";
    forall g | g in KeysOf(all, GroupName)
      ensures (g, Lookup(Grouped(all), g)) in GroupEntries(all, search)
    {
      var o :| o in all && GroupName(o) == g;
      EmptyQueryMatches(o);
      GroupListed(all, search, o);
    }
  }

  // ---------------------------------------------------------------------------
  // Local state

  /** `toggle`: flips whether one group is expanded. */
  function Toggle(expanded: set<string>, g: string): (r: set<string>)
    ensures g in r <==> g !in expanded
    ensures forall h :: h != g ==> (h in r <==> h in expanded)
  {
    if g in expanded then expanded - {g} else expanded + {g}
  }

  lemma ToggleTwice(expanded: set<string>, g: string)
    ensures Toggle(Toggle(expanded, g), g) == expanded
  {
  }

  /** The picker's local state: search text, selected option key, expanded groups. */
  datatype ModalState = ModalState(search: string, selectedKey: Option<string>, expanded: set<string>)

  const InitialModal: ModalState := ModalState("", None, {})

  /** The effect on `isOpen`: closing clears all local state, opening keeps it. */
  function OnOpenChange(st: ModalState, isOpen: bool): (r: ModalState)
    ensures !isOpen ==> r.search == "" && r.selectedKey.None? && r.expanded == {}
    ensures isOpen ==> r == st
  {
    if isOpen then st else InitialModal
  }

  /** Clicking a group label flips whether that group is expanded, and nothing else. */
  function ClickGroup(st: ModalState, g: string): (r: ModalState)
    ensures g in r.expanded <==> g !in st.expanded
    ensures forall h :: h != g ==> (h in r.expanded <==> h in st.expanded)
    ensures r.search == st.search && r.selectedKey == st.selectedKey
  {
    st.(expanded := Toggle(st.expanded, g))
  }

  /** Clicking an option selects its key and leaves search and expansion alone. */
  function ClickOption(st: ModalState, o: SourceOption): (r: ModalState)
    ensures r.selectedKey == Some(o.key)
    ensures r.search == st.search && r.expanded == st.expanded
  {
    st.(selectedKey := Some(o.key))
  }

  /** Typing in the search box replaces the search text only. */
  function SetSearch(st: ModalState, search: string): (r: ModalState)
    ensures r.search == search
    ensures r.selectedKey == st.selectedKey && r.expanded == st.expanded
  {
    st.(search := search)
  }

  /** `disabled={!selectedKey}`: nothing or the empty string selected. */
  predicate SelectDisabled(st: ModalState) {
    st.selectedKey.None? || st.selectedKey.value == ""
  }

  /** Pressing Select: the option of `all` with the selected key, or nothing
      when the button is disabled or no option has that key. */
  function Select(all: seq<SourceOption>, st: ModalState): (r: Option<SourceOption>)
    ensures r.Some? ==> !SelectDisabled(st) && r.value in all && st.selectedKey == Some(r.value.key)
    ensures r.None? <==> SelectDisabled(st) || forall o :: o in all ==> st.selectedKey != Some(o.key)
  {
    if SelectDisabled(st) then None
    else Find(all, (o: SourceOption) => o.key == st.selectedKey.value)
  }

  /** With unique keys, clicking an option and pressing Select yields exactly that option. */
  lemma SelectAfterClick(all: seq<SourceOption>, st: ModalState, o: SourceOption)
    requires UniqueKeys(all, OptionKey)
    requires o in all && o.key != ""
    ensures Select(all, ClickOption(st, o)) == Some(o)
  {
    var r := Select(all, ClickOption(st, o));
    var i :| 0 <= i < |all| && all[i] == o;
    assert r.Some?;
    var j :| 0 <= j < |all| && all[j] == r.value;
    assert OptionKey(all[i]) == OptionKey(all[j]);
  }

  /** Picking a global field yields its global option, whatever options were passed in. */
  lemma SelectGlobalField(globals: Namespace, options: seq<SourceOption>, st: ModalState, i: nat)
    requires DistinctKeys(globals)
    requires i < |globals|
    ensures Select(AllOptions(globals, options), ClickOption(st, GlobalOption(globals[i].0)))
         == Some(GlobalOption(globals[i].0))
  {
    var all := AllOptions(globals, options);
    AllOptionsGlobalsFirst(globals, options);
    assert all[i] == GlobalOptions(globals)[i];
    SelectAfterClick(all, st, GlobalOption(globals[i].0));
  }

  /** Opening the picker with no passed-in options, expanding the global group,
      clicking its first field and pressing Select yields the `button` option. */
  lemma SelectFirstGlobalValue()
    ensures Select(AllOptions(GlobalValues, []),
                   ClickOption(ClickGroup(OnOpenChange(InitialModal, true), GlobalGroup),
                               GlobalOption(GlobalValues[0].0)))
         == Some(SourceOption("GLOBAL.button", "Global values.button", "GLOBAL", "button"))
  {
    GlobalValuesDistinct();
    assert Dotted(GlobalSourceId, "button") == "GLOBAL.button";
    assert Dotted(GlobalGroup, "button") == "Global values.button";
    SelectGlobalField(GlobalValues, [], ClickGroup(OnOpenChange(InitialModal, true), GlobalGroup), 0);
  }

  /** Some listed entry carries the group name `g`. */
  ghost predicate GroupShown(all: seq<SourceOption>, search: string, g: string) {
    exists e :: e in GroupEntries(all, search) && e.0 == g
  }

  /** A passed-in option whose key no global option and no other passed-in
      option uses survives the merge. */
  lemma PassedOptionKept(globals: Namespace, options: seq<SourceOption>, o: SourceOption)
    requires o in options
    requires forall o' :: o' in options && o'.key == o.key ==> o' == o
    requires o.key !in KeysOf(GlobalOptions(globals), OptionKey)
    ensures o in AllOptions(globals, options)
  {
    var all := AllOptions(globals, options);
    assert o.key in KeysOf(options, OptionKey);
    var o' :| o' in all && o'.key == o.key;
  }

  /** With no search, the global group is listed whenever there is a global value. */
  lemma GlobalGroupShown(globals: Namespace, options: seq<SourceOption>)
    requires globals != []
    ensures GroupShown(AllOptions(globals, options), "", GlobalGroup)
  {
    var all := AllOptions(globals, options);
    var o := GlobalOptions(globals)[0];
    assert o in GlobalOptions(globals) + options;
    assert o.key in KeysOf(all, OptionKey);
    var o' :| o' in all && o'.key == o.key;
    assert GroupName(o') == GlobalGroup;
    assert Trim("") == "";
    EmptyQueryMatches(o');
    GroupListed(all, "", o');
  }

  /** With no search, every passed-in option that survives the merge has its
      group listed: each upstream form gets a group of its own name. */
  lemma PassedGroupShown(globals: Namespace, options: seq<SourceOption>, o: SourceOption)
    requires o in options
    requires forall o' :: o' in options && o'.key == o.key ==> o' == o
    requires o.key !in KeysOf(GlobalOptions(globals), OptionKey)
    ensures GroupShown(AllOptions(globals, options), "", GroupName(o))
  {
    PassedOptionKept(globals, options, o);
    assert Trim("") == "";
    EmptyQueryMatches(o);
    GroupListed(AllOptions(globals, options), "", o);
  }

  /** After closing, the Select button is disabled and nothing is expanded. */
  lemma CloseDisablesSelect(all: seq<SourceOption>, st: ModalState)
    ensures SelectDisabled(OnOpenChange(st, false))
    ensures Select(all, OnOpenChange(st, false)) == None
  {
  }
}
