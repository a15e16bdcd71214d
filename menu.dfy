/**
 * The activity menu of the log-selection form: one entry per course module the user
 * can see and open, each section introduced by a header entry, long names shortened,
 * hidden modules in parentheses, and a "site errors" entry on the front page for
 * users who may read the site log. Entries behave like a PHP array: assigning to a
 * key already present replaces its value and keeps its position.
 */
module ActivityMenu {
  import opened Wrappers
  import opened LogFilter

  /** A course module as the course's module information presents it. */
  datatype CourseModule = CourseModule(
    id: int,
    sectionNum: int,
    name: string,       // the formatted name with tags stripped
    userVisible: bool,
    hasView: bool,
    visible: bool)

  datatype MenuKey = SectionKey(num: int) | ModuleKey(id: int) | SiteErrorsKey

  datatype Entry = Entry(key: MenuKey, text: string)

  /** The loop's state: the entries so far, the section of the last listed module, the selection. */
  datatype MenuState = MenuState(entries: seq<Entry>, section: int, selected: Option<MenuKey>)

  const MaxNameLength: nat := 55
  const CutNameLength: nat := 50

  // ---------------------------------------------------------------------------
  // Labels

  /** A name longer than 55 characters is cut to its first 50 followed by "...". */
  function ShortName(name: string): (r: string)
    ensures |r| <= MaxNameLength
    ensures |name| <= MaxNameLength ==> r == name
    ensures |name| > MaxNameLength ==> r == name[..CutNameLength] + "..." && |r| == CutNameLength + 3
  {
    if |name| > MaxNameLength then name[..CutNameLength] + "..." else name
  }

  /** Shortening is idempotent: a shortened name is short enough to be kept as it is. */
  lemma ShortNameIdempotent(name: string)
    ensures ShortName(ShortName(name)) == ShortName(name)
  {
  }

  /** The label of a module: its short name, in parentheses when the module is hidden. */
  function Label(cm: CourseModule): (r: string)
    ensures cm.visible ==> r == ShortName(cm.name)
    ensures !cm.visible ==> |r| == |ShortName(cm.name)| + 2 && r[0] == '(' && r[|r| - 1] == ')'
                            && r[1..|r| - 1] == ShortName(cm.name)
  {
    if cm.visible then ShortName(cm.name) else "(" + ShortName(cm.name) + ")"
  }

  function SectionTitle(sectionName: int -> string, num: int): string {
    "--- " + sectionName(num) + " ---"
  }

  /** Whether the module gets an entry: the user can see it and it has a page of its own. */
  predicate Shown(cm: CourseModule) {
    cm.userVisible && cm.hasView
  }

  // ---------------------------------------------------------------------------
  // Keyed entries

  predicate HasKey(entries: seq<Entry>, key: MenuKey) {
    exists j :: 0 <= j < |entries| && entries[j].key == key
  }

  /** The position of a key. */
  function IndexOf(entries: seq<Entry>, key: MenuKey): (j: nat)
    requires HasKey(entries, key)
    ensures j < |entries| && entries[j].key == key
    ensures forall i :: 0 <= i < j ==> entries[i].key != key
  {
    if entries[0].key == key then 0
    else
      assert HasKey(entries[1..], key) by {
        var j :| 0 <= j < |entries| && entries[j].key == key;
        assert entries[1..][j - 1].key == key;
      }
      1 + IndexOf(entries[1..], key)
  }

  predicate Unique(entries: seq<Entry>) {
    forall i, j :: 0 <= i < j < |entries| ==> entries[i].key != entries[j].key
  }

  /** Array assignment: the value of an existing key is replaced in place, a new key is appended. */
  function Put(entries: seq<Entry>, key: MenuKey, text: string): (r: seq<Entry>)
    ensures HasKey(entries, key) ==> r == entries[IndexOf(entries, key) := Entry(key, text)]
    ensures !HasKey(entries, key) ==> r == entries + [Entry(key, text)]
  {
    if HasKey(entries, key) then entries[IndexOf(entries, key) := Entry(key, text)]
    else entries + [Entry(key, text)]
  }

  /** The first position holding a key is its index. */
  lemma IndexOfAt(entries: seq<Entry>, key: MenuKey, j: nat)
    requires j < |entries| && entries[j].key == key
    requires forall i :: 0 <= i < j ==> entries[i].key != key
    ensures HasKey(entries, key) && IndexOf(entries, key) == j
  {
  }

  /** Replacing the value of a present key keeps every key, uniqueness and every index. */
  lemma PutExisting(entries: seq<Entry>, key: MenuKey, text: string)
    requires Unique(entries) && HasKey(entries, key)
    ensures var r := Put(entries, key, text);
      && |r| == |entries|
      && (forall i :: 0 <= i < |r| ==> r[i].key == entries[i].key)
      && Unique(r)
      && (forall k :: HasKey(r, k) <==> HasKey(entries, k))
      && (forall k :: HasKey(entries, k) ==> IndexOf(r, k) == IndexOf(entries, k))
  {
    var r := Put(entries, key, text);
    forall k | HasKey(r, k)
      ensures HasKey(entries, k)
    {
      assert entries[IndexOf(r, k)].key == k;
    }
    forall k | HasKey(entries, k)
      ensures HasKey(r, k) && IndexOf(r, k) == IndexOf(entries, k)
    {
      IndexOfAt(r, k, IndexOf(entries, k));
    }
  }

  /** Appending a new key keeps uniqueness and every index, and puts the key last. */
  lemma PutNew(entries: seq<Entry>, key: MenuKey, text: string)
    requires Unique(entries) && !HasKey(entries, key)
    ensures var r := Put(entries, key, text);
      && Unique(r)
      && HasKey(r, key) && IndexOf(r, key) == |entries|
      && (forall k :: HasKey(r, k) <==> HasKey(entries, k) || k == key)
      && (forall k :: HasKey(entries, k) ==> IndexOf(r, k) == IndexOf(entries, k))
  {
    var r := Put(entries, key, text);
    IndexOfAt(r, key, |entries|);
    forall k | HasKey(r, k)
      ensures HasKey(entries, k) || k == key
    {
      var j := IndexOf(r, k);
      if j < |entries| {
        assert entries[j].key == k;
      }
    }
    forall k | HasKey(entries, k)
      ensures HasKey(r, k) && IndexOf(r, k) == IndexOf(entries, k)
    {
      IndexOfAt(r, k, IndexOf(entries, k));
    }
  }

  // ---------------------------------------------------------------------------
  // The menu as a fold over the modules

  function Step(s: MenuState, cm: CourseModule, sectionName: int -> string, modId: ModSel): MenuState {
    if !Shown(cm) then s
    else
      var withHeader :=
        if cm.sectionNum > 0 && s.section != cm.sectionNum
        then Put(s.entries, SectionKey(cm.sectionNum), SectionTitle(sectionName, cm.sectionNum))
        else s.entries;
      MenuState(Put(withHeader, ModuleKey(cm.id), Label(cm)), cm.sectionNum,
                if modId == ModId(cm.id) then Some(ModuleKey(cm.id)) else s.selected)
  }

  function Fold(cms: seq<CourseModule>, sectionName: int -> string, modId: ModSel): MenuState {
    if cms == [] then MenuState([], 0, None)
    else Step(Fold(cms[..|cms| - 1], sectionName, modId), cms[|cms| - 1], sectionName, modId)
  }

  /**
   * The whole menu and the selected entry. `siteLog` holds when the user may read the
   * site log and the course is the front page; `modId` is the requested activity.
   */
  function Menu(cms: seq<CourseModule>, sectionName: int -> string, modId: ModSel,
                siteLog: bool, siteErrorsTitle: string): (seq<Entry>, Option<MenuKey>)
  {
    var s := Fold(cms, sectionName, modId);
    if siteLog then
      (Put(s.entries, SiteErrorsKey, siteErrorsTitle), if modId == SiteErrors then Some(SiteErrorsKey) else s.selected)
    else (s.entries, s.selected)
  }

  /** The loop over the course's modules, followed by the site-errors entry. */
  method BuildActivityMenu(cms: seq<CourseModule>, sectionName: int -> string, modId: ModSel,
                           siteLog: bool, siteErrorsTitle: string)
    returns (activities: seq<Entry>, selected: Option<MenuKey>)
    ensures (activities, selected) == Menu(cms, sectionName, modId, siteLog, siteErrorsTitle)
  {
    activities, selected := [], None;
    var section := 0;
    var i := 0;
    while i < |cms|
      invariant 0 <= i <= |cms|
      invariant MenuState(activities, section, selected) == Fold(cms[..i], sectionName, modId)
    {
      var cm := cms[i];
      if cm.userVisible && cm.hasView {
        if cm.sectionNum > 0 && section != cm.sectionNum {
          activities := Put(activities, SectionKey(cm.sectionNum), SectionTitle(sectionName, cm.sectionNum));
        }
        section := cm.sectionNum;
        var name := ShortName(cm.name);
        if !cm.visible {
          name := "(" + name + ")";
        }
        activities := Put(activities, ModuleKey(cm.id), name);
        if modId == ModId(cm.id) {
          selected := Some(ModuleKey(cm.id));
        }
      }
      assert cms[..i + 1][..i] == cms[..i];
      i := i + 1;
    }
    assert cms[..|cms|] == cms;
    if siteLog {
      activities := Put(activities, SiteErrorsKey, siteErrorsTitle);
      if modId == SiteErrors {
        selected := Some(SiteErrorsKey);
      }
    }
  }

  // ---------------------------------------------------------------------------
  // What the menu contains

  /** Module ids are distinct, as they are in the course's module information. */
  predicate DistinctIds(cms: seq<CourseModule>) {
    forall i, j :: 0 <= i < j < |cms| ==> cms[i].id != cms[j].id
  }

  function ShownIds(cms: seq<CourseModule>): set<int> {
    if cms == [] then {}
    else ShownIds(cms[..|cms| - 1]) + (if Shown(cms[|cms| - 1]) then {cms[|cms| - 1].id} else {})
  }

  /** The entries one expects for the modules alone: one per shown module, in order. */
  function ShownEntries(cms: seq<CourseModule>): seq<Entry> {
    if cms == [] then []
    else
      var cm := cms[|cms| - 1];
      ShownEntries(cms[..|cms| - 1]) + (if Shown(cm) then [Entry(ModuleKey(cm.id), Label(cm))] else [])
  }

  /** The module entries of a menu, in order. */
  function Modules(entries: seq<Entry>): seq<Entry> {
    if entries == [] then []
    else
      var e := entries[|entries| - 1];
      Modules(entries[..|entries| - 1]) + (if e.key.ModuleKey? then [e] else [])
  }

  /** Overwriting an entry that is not a module entry with another one leaves the module entries alone. */
  lemma {:induction false} ModulesUpdate(entries: seq<Entry>, j: nat, e: Entry)
    requires j < |entries| && !entries[j].key.ModuleKey? && !e.key.ModuleKey?
    ensures Modules(entries[j := e]) == Modules(entries)
  {
    var n := |entries|;
    if j < n - 1 {
      assert entries[j := e][..n - 1] == entries[..n - 1][j := e];
      ModulesUpdate(entries[..n - 1], j, e);
    } else {
      assert entries[j := e][..n - 1] == entries[..n - 1];
    }
  }

  lemma ModulesAppend(entries: seq<Entry>, e: Entry)
    ensures Modules(entries + [e]) == Modules(entries) + (if e.key.ModuleKey? then [e] else [])
  {
    assert (entries + [e])[..|entries|] == entries;
  }

  /** A header or site-errors assignment does not change the module entries. */
  lemma ModulesPutOther(entries: seq<Entry>, key: MenuKey, text: string)
    requires !key.ModuleKey?
    ensures Modules(Put(entries, key, text)) == Modules(entries)
  {
    if HasKey(entries, key) {
      ModulesUpdate(entries, IndexOf(entries, key), Entry(key, text));
    } else {
      ModulesAppend(entries, Entry(key, text));
    }
  }

  /** What the entries keep for a prefix of the modules, whose ids are distinct. */
  ghost predicate Listed(entries: seq<Entry>, cms: seq<CourseModule>) {
    && Unique(entries)
    && !HasKey(entries, SiteErrorsKey)
    && (forall x :: HasKey(entries, ModuleKey(x)) <==> x in ShownIds(cms))
    && Modules(entries) == ShownEntries(cms)
    && HeadersFirst(entries, cms)
  }

  /** Every shown module of a numbered section is listed after that section's header. */
  ghost predicate HeadersFirst(entries: seq<Entry>, cms: seq<CourseModule>) {
    forall i :: 0 <= i < |cms| && Shown(cms[i]) && cms[i].sectionNum > 0 ==>
      && HasKey(entries, SectionKey(cms[i].sectionNum))
      && HasKey(entries, ModuleKey(cms[i].id))
      && IndexOf(entries, SectionKey(cms[i].sectionNum)) < IndexOf(entries, ModuleKey(cms[i].id))
  }

  ghost predicate FoldInvariant(s: MenuState, cms: seq<CourseModule>) {
    && Listed(s.entries, cms)
    && (s.section > 0 ==> HasKey(s.entries, SectionKey(s.section)))
  }

  lemma ShownIdsMember(cms: seq<CourseModule>, x: int)
    ensures x in ShownIds(cms) <==> exists i :: 0 <= i < |cms| && Shown(cms[i]) && cms[i].id == x
  {
    if cms != [] {
      var p := cms[..|cms| - 1];
      ShownIdsMember(p, x);
      if x in ShownIds(p) {
        var i :| 0 <= i < |p| && Shown(p[i]) && p[i].id == x;
        assert cms[i] == p[i];
      }
      if exists i :: 0 <= i < |cms| && Shown(cms[i]) && cms[i].id == x {
        var i :| 0 <= i < |cms| && Shown(cms[i]) && cms[i].id == x;
        if i < |p| {
          assert p[i] == cms[i];
        }
      }
    }
  }

  /** Assigning a section header keeps what is listed and makes the header present. */
  lemma PutHeader(entries: seq<Entry>, cms: seq<CourseModule>, num: int, title: string)
    requires Listed(entries, cms)
    ensures Listed(Put(entries, SectionKey(num), title), cms)
    ensures HasKey(Put(entries, SectionKey(num), title), SectionKey(num))
    ensures forall k :: HasKey(entries, k) ==> HasKey(Put(entries, SectionKey(num), title), k)
  {
    var r := Put(entries, SectionKey(num), title);
    ModulesPutOther(entries, SectionKey(num), title);
    if HasKey(entries, SectionKey(num)) {
      PutExisting(entries, SectionKey(num), title);
    } else {
      PutNew(entries, SectionKey(num), title);
    }
    assert HeadersFirst(r, cms);
  }

  /** Appending a module to the prefix extends its shown ids and its expected entries. */
  lemma ShownSnoc(cms: seq<CourseModule>, cm: CourseModule)
    ensures ShownIds(cms + [cm]) == ShownIds(cms) + (if Shown(cm) then {cm.id} else {})
    ensures ShownEntries(cms + [cm])
            == ShownEntries(cms) + (if Shown(cm) then [Entry(ModuleKey(cm.id), Label(cm))] else [])
  {
    assert (cms + [cm])[..|cms|] == cms;
  }

  /** Assigning a new module's label lists that module last. */
  lemma PutModule(entries: seq<Entry>, cms: seq<CourseModule>, cm: CourseModule)
    requires Listed(entries, cms)
    requires Shown(cm) && cm.id !in ShownIds(cms)
    requires cm.sectionNum > 0 ==> HasKey(entries, SectionKey(cm.sectionNum))
    ensures Listed(Put(entries, ModuleKey(cm.id), Label(cm)), cms + [cm])
  {
    var r := Put(entries, ModuleKey(cm.id), Label(cm));
    ShownSnoc(cms, cm);
    PutNew(entries, ModuleKey(cm.id), Label(cm));
    ModulesAppend(entries, Entry(ModuleKey(cm.id), Label(cm)));
    PutModuleHeaders(entries, cms, cm);
    assert forall x :: HasKey(r, ModuleKey(x)) <==> x in ShownIds(cms + [cm]);
  }

  lemma PutModuleHeaders(entries: seq<Entry>, cms: seq<CourseModule>, cm: CourseModule)
    requires Unique(entries) && HeadersFirst(entries, cms)
    requires !HasKey(entries, ModuleKey(cm.id))
    requires cm.sectionNum > 0 ==> HasKey(entries, SectionKey(cm.sectionNum))
    ensures HeadersFirst(Put(entries, ModuleKey(cm.id), Label(cm)), cms + [cm])
  {
    var all := cms + [cm];
    var r := Put(entries, ModuleKey(cm.id), Label(cm));
    PutNew(entries, ModuleKey(cm.id), Label(cm));
    forall i | 0 <= i < |all| && Shown(all[i]) && all[i].sectionNum > 0
      ensures && HasKey(r, SectionKey(all[i].sectionNum))
              && HasKey(r, ModuleKey(all[i].id))
              && IndexOf(r, SectionKey(all[i].sectionNum)) < IndexOf(r, ModuleKey(all[i].id))
    {
      if i < |cms| {
        assert all[i] == cms[i];
      }
    }
  }

  /** One step keeps the invariant. */
  lemma StepKeeps(s: MenuState, cms: seq<CourseModule>, cm: CourseModule, sectionName: int -> string, modId: ModSel)
    requires FoldInvariant(s, cms)
    requires Shown(cm) ==> cm.id !in ShownIds(cms)
    ensures FoldInvariant(Step(s, cm, sectionName, modId), cms + [cm])
  {
    var all := cms + [cm];
    assert all[..|all| - 1] == cms;
    if Shown(cm) {
      var withHeader := s.entries;
      if cm.sectionNum > 0 && s.section != cm.sectionNum {
        withHeader := Put(s.entries, SectionKey(cm.sectionNum), SectionTitle(sectionName, cm.sectionNum));
        PutHeader(s.entries, cms, cm.sectionNum, SectionTitle(sectionName, cm.sectionNum));
      }
      PutModule(withHeader, cms, cm);
      var r := Put(withHeader, ModuleKey(cm.id), Label(cm));
      assert Step(s, cm, sectionName, modId).entries == r;
      PutNew(withHeader, ModuleKey(cm.id), Label(cm));
    } else {
      assert HeadersFirst(s.entries, all) by {
        forall i | 0 <= i < |all| && Shown(all[i]) && all[i].sectionNum > 0
          ensures HasKey(s.entries, SectionKey(all[i].sectionNum))
        {
          assert i < |cms| && all[i] == cms[i];
        }
      }
    }
  }

  lemma {:induction false} FoldKeeps(cms: seq<CourseModule>, sectionName: int -> string, modId: ModSel)
    requires DistinctIds(cms)
    ensures FoldInvariant(Fold(cms, sectionName, modId), cms)
  {
    if cms != [] {
      var p := cms[..|cms| - 1];
      var cm := cms[|cms| - 1];
      FoldKeeps(p, sectionName, modId);
      ShownIdsMember(p, cm.id);
      assert cms == p + [cm];
      StepKeeps(Fold(p, sectionName, modId), p, cm, sectionName, modId);
    }
  }

  /** The selection among the modules: the requested module when it is listed, nothing otherwise. */
  lemma {:induction false} FoldSelected(cms: seq<CourseModule>, sectionName: int -> string, modId: ModSel)
    ensures Fold(cms, sectionName, modId).selected
            == if modId.ModId? && modId.id in ShownIds(cms) then Some(ModuleKey(modId.id)) else None
  {
    if cms != [] {
      FoldSelected(cms[..|cms| - 1], sectionName, modId);
    }
  }

  /** The site-errors entry is appended after the modules and leaves them as they were. */
  lemma PutSiteErrors(entries: seq<Entry>, cms: seq<CourseModule>, title: string)
    requires Listed(entries, cms)
    ensures var r := Put(entries, SiteErrorsKey, title);
      && Unique(r) && HasKey(r, SiteErrorsKey)
      && Modules(r) == ShownEntries(cms)
      && HeadersFirst(r, cms)
  {
    var r := Put(entries, SiteErrorsKey, title);
    PutNew(entries, SiteErrorsKey, title);
    ModulesPutOther(entries, SiteErrorsKey, title);
    assert HeadersFirst(r, cms);
  }

  /** The numbered sections holding a shown module. */
  function ShownSections(cms: seq<CourseModule>): set<int> {
    if cms == [] then {}
    else
      var cm := cms[|cms| - 1];
      ShownSections(cms[..|cms| - 1]) + (if Shown(cm) && cm.sectionNum > 0 then {cm.sectionNum} else {})
  }

  lemma {:induction false} ShownSectionsMember(cms: seq<CourseModule>, n: int)
    ensures n in ShownSections(cms) <==>
            n > 0 && exists i :: 0 <= i < |cms| && Shown(cms[i]) && cms[i].sectionNum == n
  {
    if cms != [] {
      var p := cms[..|cms| - 1];
      ShownSectionsMember(p, n);
      if n in ShownSections(p) {
        var i :| 0 <= i < |p| && Shown(p[i]) && p[i].sectionNum == n;
        assert cms[i] == p[i];
      }
      if n > 0 && exists i :: 0 <= i < |cms| && Shown(cms[i]) && cms[i].sectionNum == n {
        var i :| 0 <= i < |cms| && Shown(cms[i]) && cms[i].sectionNum == n;
        if i < |p| {
          assert p[i] == cms[i];
        }
      }
    }
  }

  /** Every header entry carries its section's title, for a numbered section holding a shown module. */
  ghost predicate HeadersSound(entries: seq<Entry>, cms: seq<CourseModule>, sectionName: int -> string) {
    forall j :: 0 <= j < |entries| && entries[j].key.SectionKey? ==>
      && entries[j].text == SectionTitle(sectionName, entries[j].key.num)
      && entries[j].key.num in ShownSections(cms)
  }

  /** An assignment keeps the headers sound when a header it writes is itself sound. */
  lemma PutSound(entries: seq<Entry>, cms: seq<CourseModule>, sectionName: int -> string, key: MenuKey, text: string)
    requires HeadersSound(entries, cms, sectionName)
    requires key.SectionKey? ==> text == SectionTitle(sectionName, key.num) && key.num in ShownSections(cms)
    ensures HeadersSound(Put(entries, key, text), cms, sectionName)
  {
    var r := Put(entries, key, text);
    if HasKey(entries, key) {
      var at := IndexOf(entries, key);
      forall j | 0 <= j < |r| && r[j].key.SectionKey?
        ensures r[j].text == SectionTitle(sectionName, r[j].key.num) && r[j].key.num in ShownSections(cms)
      {
        if j != at {
          assert r[j] == entries[j];
        }
      }
    } else {
      forall j | 0 <= j < |r| && r[j].key.SectionKey?
        ensures r[j].text == SectionTitle(sectionName, r[j].key.num) && r[j].key.num in ShownSections(cms)
      {
        if j < |entries| {
          assert r[j] == entries[j];
        }
      }
    }
  }

  /** Listing one more module only adds sections. */
  lemma SoundGrow(entries: seq<Entry>, cms: seq<CourseModule>, cm: CourseModule, sectionName: int -> string)
    requires HeadersSound(entries, cms, sectionName)
    ensures HeadersSound(entries, cms + [cm], sectionName)
    ensures Shown(cm) && cm.sectionNum > 0 ==> cm.sectionNum in ShownSections(cms + [cm])
  {
    assert (cms + [cm])[..|cms|] == cms;
  }

  lemma {:induction false} FoldSound(cms: seq<CourseModule>, sectionName: int -> string, modId: ModSel)
    ensures HeadersSound(Fold(cms, sectionName, modId).entries, cms, sectionName)
  {
    if cms != [] {
      var p := cms[..|cms| - 1];
      var cm := cms[|cms| - 1];
      var s := Fold(p, sectionName, modId);
      FoldSound(p, sectionName, modId);
      assert cms == p + [cm];
      SoundGrow(s.entries, p, cm, sectionName);
      if Shown(cm) {
        var withHeader := s.entries;
        if cm.sectionNum > 0 && s.section != cm.sectionNum {
          withHeader := Put(s.entries, SectionKey(cm.sectionNum), SectionTitle(sectionName, cm.sectionNum));
          PutSound(s.entries, cms, sectionName, SectionKey(cm.sectionNum), SectionTitle(sectionName, cm.sectionNum));
        }
        PutSound(withHeader, cms, sectionName, ModuleKey(cm.id), Label(cm));
      }
    }
  }

  /**
   * The menu's promises: keys are unique; its module entries are exactly the shown
   * modules' labels in course order; every shown module of a numbered section comes
   * after that section's header, and every header is titled after a numbered section
   * holding a shown module; the site-errors entry is there exactly for site-log
   * readers on the front page; the selection is the requested entry when it is listed
   * and nothing otherwise.
   */
  lemma MenuContents(cms: seq<CourseModule>, sectionName: int -> string, modId: ModSel,
                     siteLog: bool, siteErrorsTitle: string)
    requires DistinctIds(cms)
    ensures var (entries, selected) := Menu(cms, sectionName, modId, siteLog, siteErrorsTitle);
      && Unique(entries)
      && Modules(entries) == ShownEntries(cms)
      && HeadersFirst(entries, cms)
      && (forall j :: 0 <= j < |entries| && entries[j].key.SectionKey? ==>
            && entries[j].text == SectionTitle(sectionName, entries[j].key.num)
            && entries[j].key.num > 0
            && exists i :: 0 <= i < |cms| && Shown(cms[i]) && cms[i].sectionNum == entries[j].key.num)
      && (HasKey(entries, SiteErrorsKey) <==> siteLog)
      && selected == if siteLog && modId == SiteErrors then Some(SiteErrorsKey)
                     else if modId.ModId? && modId.id in ShownIds(cms) then Some(ModuleKey(modId.id))
                     else None
  {
    var s := Fold(cms, sectionName, modId);
    FoldKeeps(cms, sectionName, modId);
    FoldSelected(cms, sectionName, modId);
    FoldSound(cms, sectionName, modId);
    var entries := s.entries;
    if siteLog {
      PutSiteErrors(s.entries, cms, siteErrorsTitle);
      PutSound(s.entries, cms, sectionName, SiteErrorsKey, siteErrorsTitle);
      entries := Put(s.entries, SiteErrorsKey, siteErrorsTitle);
    }
    SoundHeadersMeaning(entries, cms, sectionName);
  }

  /** Sound headers carry their section's title and name a numbered section holding a shown module. */
  lemma SoundHeadersMeaning(entries: seq<Entry>, cms: seq<CourseModule>, sectionName: int -> string)
    requires HeadersSound(entries, cms, sectionName)
    ensures forall j :: 0 <= j < |entries| && entries[j].key.SectionKey? ==>
      && entries[j].text == SectionTitle(sectionName, entries[j].key.num)
      && entries[j].key.num > 0
      && exists i :: 0 <= i < |cms| && Shown(cms[i]) && cms[i].sectionNum == entries[j].key.num
  {
    forall j | 0 <= j < |entries| && entries[j].key.SectionKey?
      ensures && entries[j].key.num > 0
              && exists i :: 0 <= i < |cms| && Shown(cms[i]) && cms[i].sectionNum == entries[j].key.num
    {
      ShownSectionsMember(cms, entries[j].key.num);
    }
  }
}
