/** The editor's tab bar: the open tabs, the active one, editing the active
    tab, closing a tab, and the syntax mode chosen for a language name. */
module Editor {
  import opened Wrappers
  import Text

  datatype Tab = Tab(id: string, name: string, path: string, content: string, language: string, isModified: bool)

  /** The CodeMirror language extensions `getLanguageExtension` chooses from. */
  datatype LanguageMode = JavaScript | TypeScript | TypeScriptJsx | Css | Html | Json | Markdown

  /** `getLanguageExtension`: the mode for a language name, ignoring case;
      any other name gets plain JavaScript. */
  function LanguageExtension(language: string): (r: LanguageMode)
    ensures r != JavaScript <==> Text.ToLower(language) in KnownLanguages - {"javascript", "js"}
  {
    match Text.ToLower(language)
    case "javascript" => JavaScript
    case "js" => JavaScript
    case "typescript" => TypeScript
    case "ts" => TypeScript
    case "jsx" => TypeScriptJsx
    case "tsx" => TypeScriptJsx
    case "css" => Css
    case "html" => Html
    case "json" => Json
    case "markdown" => Markdown
    case "md" => Markdown
    case _ => JavaScript
  }

  /** The names the switch lists. */
  const KnownLanguages: set<string> :=
    {"javascript", "js", "typescript", "ts", "jsx", "tsx", "css", "html", "json", "markdown", "md"}

  /** The mode depends on the name only up to case. */
  lemma LanguageCaseInsensitive(language: string)
    ensures LanguageExtension(Text.ToLower(language)) == LanguageExtension(language)
  {
    Text.ToLowerIdempotent(language);
  }

  /** A name outside the switch falls back to JavaScript, and every mode other
      than JavaScript comes from a listed name. */
  lemma LanguageFallback(language: string)
    ensures Text.ToLower(language) !in KnownLanguages ==> LanguageExtension(language) == JavaScript
    ensures LanguageExtension(language) != JavaScript ==> Text.ToLower(language) in KnownLanguages
  {
  }

  lemma LanguageExamples()
    ensures LanguageExtension("TSX") == TypeScriptJsx
    ensures LanguageExtension("Markdown") == Markdown
    ensures LanguageExtension("python") == JavaScript
  {
    assert Text.ToLower("TSX") == "tsx";
    assert Text.ToLower("Markdown") == "markdown";
    assert Text.ToLower("python") == "python";
  }

  /** `tabs.find`: the first tab with this id. */
  function FindTab(tabs: seq<Tab>, id: string): (r: Option<Tab>)
    ensures r.None? <==> forall i :: 0 <= i < |tabs| ==> tabs[i].id != id
    ensures r.Some? ==> r.value in tabs && r.value.id == id
  {
    if tabs == [] then None
    else if tabs[0].id == id then Some(tabs[0])
    else FindTab(tabs[1..], id)
  }

  /** The tab found is the first one carrying the id. */
  lemma {:induction false} FindTabFirst(tabs: seq<Tab>, id: string, i: nat)
    requires i < |tabs| && tabs[i].id == id
    requires forall j :: 0 <= j < i ==> tabs[j].id != id
    ensures FindTab(tabs, id) == Some(tabs[i])
  {
    if i > 0 {
      FindTabFirst(tabs[1..], id, i - 1);
    }
  }

  /** The tab list after typing `value` into the tab `activeId`: that tab
      takes the new content and is marked modified; every other tab, and the
      order and count of tabs, is as before. */
  function ContentChanged(tabs: seq<Tab>, activeId: string, value: string): (r: seq<Tab>)
    ensures |r| == |tabs|
    ensures forall i :: 0 <= i < |tabs| && tabs[i].id == activeId ==>
      r[i] == tabs[i].(content := value, isModified := true)
    ensures forall i :: 0 <= i < |tabs| && tabs[i].id != activeId ==> r[i] == tabs[i]
  {
    seq(|tabs|, i requires 0 <= i < |tabs| =>
      if tabs[i].id == activeId then tabs[i].(content := value, isModified := true) else tabs[i])
  }

  lemma {:induction false} ContentChangedFind(tabs: seq<Tab>, activeId: string, value: string)
    ensures FindTab(ContentChanged(tabs, activeId, value), activeId)
         == if FindTab(tabs, activeId).Some? then Some(FindTab(tabs, activeId).value.(content := value, isModified := true)) else None
  {
    if tabs != [] {
      assert ContentChanged(tabs, activeId, value)[1..] == ContentChanged(tabs[1..], activeId, value);
      ContentChangedFind(tabs[1..], activeId, value);
    }
  }

  /** After an edit, the active tab holds what was typed. */
  lemma ContentChangedActive(tabs: seq<Tab>, activeId: string, value: string)
    ensures var t := FindTab(ContentChanged(tabs, activeId, value), activeId);
      t.Some? <==> FindTab(tabs, activeId).Some?
    ensures var t := FindTab(ContentChanged(tabs, activeId, value), activeId);
      t.Some? ==> t.value == FindTab(tabs, activeId).value.(content := value, isModified := true)
  {
    ContentChangedFind(tabs, activeId, value);
  }

  /** `tabs.filter`: the tabs whose id is not `id`, in their order. */
  function WithoutTab(tabs: seq<Tab>, id: string): (r: seq<Tab>)
    ensures forall t :: t in r <==> t in tabs && t.id != id
    ensures |r| <= |tabs|
  {
    if tabs == [] then []
    else (if tabs[0].id == id then [] else [tabs[0]]) + WithoutTab(tabs[1..], id)
  }

  /** Filtering keeps the order: it distributes over concatenation. */
  lemma {:induction false} WithoutTabAppend(a: seq<Tab>, b: seq<Tab>, id: string)
    ensures WithoutTab(a + b, id) == WithoutTab(a, id) + WithoutTab(b, id)
  {
    if a == [] {
      assert a + b == b;
    } else {
      assert (a + b)[1..] == a[1..] + b;
      WithoutTabAppend(a[1..], b, id);
    }
  }

  /** Filtering out a tab id that no tab carries changes nothing. */
  lemma {:induction false} WithoutAbsentTab(tabs: seq<Tab>, id: string)
    requires forall i :: 0 <= i < |tabs| ==> tabs[i].id != id
    ensures WithoutTab(tabs, id) == tabs
  {
    if tabs != [] {
      WithoutAbsentTab(tabs[1..], id);
    }
  }

  /** Lookup of any other id sees through the filter. */
  lemma {:induction false} FindTabWithout(tabs: seq<Tab>, closed: string, id: string)
    requires id != closed
    ensures FindTab(WithoutTab(tabs, closed), id) == FindTab(tabs, id)
  {
    if tabs != [] {
      var rest := WithoutTab(tabs[1..], closed);
      FindTabWithout(tabs[1..], closed, id);
      if tabs[0].id == closed {
        assert WithoutTab(tabs, closed) == rest;
      } else {
        assert WithoutTab(tabs, closed) == [tabs[0]] + rest;
        assert ([tabs[0]] + rest)[1..] == rest;
      }
    }
  }

  /** Filtering out the only id the tabs carry leaves nothing. */
  lemma {:induction false} AllClosedLeavesNone(tabs: seq<Tab>, closed: string)
    requires forall i :: 0 <= i < |tabs| ==> tabs[i].id == closed
    ensures WithoutTab(tabs, closed) == []
  {
    if tabs != [] {
      assert forall i :: 0 <= i < |tabs[1..]| ==> tabs[1..][i] == tabs[i + 1];
      AllClosedLeavesNone(tabs[1..], closed);
    }
  }

  /** `closeTab`'s choice of active tab: another tab stays active; closing
      the active one moves to a remaining tab, or keeps the stale id when
      none remains. */
  function NextActive(tabs: seq<Tab>, activeId: string, closed: string): (r: string)
    ensures activeId != closed ==> r == activeId
    ensures activeId == closed && WithoutTab(tabs, closed) != [] ==>
      r != closed && FindTab(WithoutTab(tabs, closed), r).Some?
    ensures WithoutTab(tabs, closed) == [] ==> r == activeId
  {
    var remaining := WithoutTab(tabs, closed);
    if activeId == closed && |remaining| > 0 then
      assert remaining[0] in remaining;
      remaining[0].id
    else activeId
  }

  /** Closing the active tab while others remain activates the first
      remaining one; closing another tab leaves the active tab as it was;
      no tab with the closed id is left; and when every tab carries the
      closed id, none remains and the active id stays as it was, naming no
      open tab. */
  lemma CloseTabActive(tabs: seq<Tab>, activeId: string, closed: string)
    ensures var remaining := WithoutTab(tabs, closed);
      var next := NextActive(tabs, activeId, closed);
      && (activeId == closed && remaining != [] ==> FindTab(remaining, next) == Some(remaining[0]))
      && (activeId != closed ==> next == activeId && FindTab(remaining, next) == FindTab(tabs, activeId))
      && FindTab(remaining, closed) == None
      && ((forall i :: 0 <= i < |tabs| ==> tabs[i].id == closed) ==>
            remaining == [] && next == activeId && FindTab(remaining, next) == None)
  {
    var remaining := WithoutTab(tabs, closed);
    if forall i :: 0 <= i < |tabs| ==> tabs[i].id == closed {
      AllClosedLeavesNone(tabs, closed);
    }
    if activeId != closed {
      FindTabWithout(tabs, closed, activeId);
    }
    assert forall i :: 0 <= i < |remaining| ==> remaining[i] in remaining;
  }

  /** The prefilled tab the editor opens with. */
  const DemoContent: string :=
    "export default function Home() {\n  return (\n    <div className=\"flex min-h-screen items-center justify-center\">\n      <h1 className=\"text-4xl font-bold\">Hello, Polaris!</h1>\n    </div>\n  );\n}"

  /** The editor's state: the open tabs and the id of the active one (which
      may name no open tab once every tab is closed). */
  class EditorState {
    var tabs: seq<Tab>
    var activeTabId: string

    constructor ()
      ensures tabs == [Tab("1", "page.tsx", "/src/app/page.tsx", DemoContent, "typescript", false)]
      ensures activeTabId == "1"
    {
      tabs := [Tab("1", "page.tsx", "/src/app/page.tsx", DemoContent, "typescript", false)];
      activeTabId := "1";
    }

    /** `activeTab`. */
    function ActiveTab(): (r: Option<Tab>)
      reads this
      ensures r.None? <==> forall i :: 0 <= i < |tabs| ==> tabs[i].id != activeTabId
      ensures r.Some? ==> r.value in tabs && r.value.id == activeTabId
    {
      FindTab(tabs, activeTabId)
    }

    /** `languageExtension`: the active tab's mode, JavaScript with no active tab. */
    function ActiveLanguage(): (r: LanguageMode)
      reads this
      ensures r == (if ActiveTab().Some? then LanguageExtension(ActiveTab().value.language) else JavaScript)
    {
      match ActiveTab()
      case None => JavaScript
      case Some(t) => LanguageExtension(t.language)
    }

    /** `handleContentChange`. */
    method HandleContentChange(value: string)
      modifies this
      ensures tabs == ContentChanged(old(tabs), old(activeTabId), value)
      ensures activeTabId == old(activeTabId)
    {
      tabs := ContentChanged(tabs, activeTabId, value);
    }

    /** `closeTab`. */
    method CloseTab(tabId: string)
      modifies this
      ensures tabs == WithoutTab(old(tabs), tabId)
      ensures activeTabId == NextActive(old(tabs), old(activeTabId), tabId)
    {
      var newTabs := WithoutTab(tabs, tabId);
      tabs := newTabs;
      if activeTabId == tabId && |newTabs| > 0 {
        activeTabId := newTabs[0].id;
      }
    }

    /** Clicking a tab makes it active. */
    method SelectTab(tabId: string)
      modifies this
      ensures activeTabId == tabId && tabs == old(tabs)
    {
      activeTabId := tabId;
    }
  }
}
