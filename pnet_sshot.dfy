/** The activation gate of the `sshot` network-setup (pnet) component.
    Opening the component succeeds only when a node grouping is configured,
    the process is a server, and the `pmix_pnet` selection variable names
    "sshot" (in any letter case).  The configuration fields, the process role
    and the variable lookup are inputs. */
module PnetSshot {

  datatype Option<+T> = None | Some(value: T)

  /** Return status of the component's entry points. */
  datatype Status = Success | Error

  /** The characters of a C string: it ends at its first NUL. */
  type CString = s: string | forall k :: 0 <= k < |s| ==> s[k] != '\0'

  /** The component's configurable fields: the `groupings` string (a C pointer
      that may be NULL) and `num_groups`. */
  datatype Component = Component(groupings: Option<CString>, numgroups: int)

  /** Storage of an MCA variable's value; its string may be NULL. */
  datatype VarStorage = VarStorage(stringval: Option<CString>)

  /** The module handed back by a query. */
  datatype Module = SshotModule

  /** The values the component is built with. */
  const Defaults := Component(None, 0)

  /** The name the selection variable must mention. */
  const Name: string := "sshot"

  // ---------------------------------------------------------------------
  // Case-insensitive substring search

  /** Letter-case folding of the C locale: only 'A' .. 'Z' change. */
  function Fold(c: char): (d: char)
    ensures 'A' <= c <= 'Z' ==> d as int == c as int + 32 && 'a' <= d <= 'z'
    ensures !('A' <= c <= 'Z') ==> d == c
  {
    if 'A' <= c <= 'Z' then (c as int + 32) as char else c
  }

  /** `needle` occurs at position `i` of `hay`, ignoring letter case. */
  ghost predicate MatchAt(hay: string, needle: string, i: nat)
  {
    i + |needle| <= |hay| &&
    forall k :: 0 <= k < |needle| ==> Fold(hay[i + k]) == Fold(needle[k])
  }

  /** `needle` occurs somewhere in `hay`, ignoring letter case. */
  ghost predicate ContainsNoCase(hay: string, needle: string)
  {
    exists i: nat :: MatchAt(hay, needle, i)
  }

  /** `s` starts with `p`, ignoring letter case. */
  function StartsWithNoCase(s: string, p: string): (b: bool)
    ensures b <==> |p| <= |s| && forall k :: 0 <= k < |p| ==> Fold(s[k]) == Fold(p[k])
  {
    if p == [] then true
    else if s == [] then false
    else Fold(s[0]) == Fold(p[0]) && StartsWithNoCase(s[1..], p[1..])
  }

  /** Testing the suffix from `i` for a prefix is testing for a match at `i`. */
  lemma PrefixIsMatch(hay: string, needle: string, i: nat)
    requires i + |needle| <= |hay|
    ensures StartsWithNoCase(hay[i..], needle) <==> MatchAt(hay, needle, i)
  {
    assert forall k :: 0 <= k < |needle| ==> hay[i..][k] == hay[i + k];
  }

  /** The first position at or after `i` where `needle` occurs in `hay`. */
  function FindFrom(hay: string, needle: string, i: nat): (r: Option<nat>)
    requires i <= |hay|
    ensures r.Some? ==> i <= r.value && MatchAt(hay, needle, r.value)
    ensures r.Some? ==> forall j :: i <= j < r.value ==> !MatchAt(hay, needle, j)
    ensures r.None? ==> forall j :: i <= j ==> !MatchAt(hay, needle, j)
    decreases |hay| - i
  {
    if i + |needle| > |hay| then None
    else
      PrefixIsMatch(hay, needle, i);
      if StartsWithNoCase(hay[i..], needle) then Some(i)
      else FindFrom(hay, needle, i + 1)
  }

  /** `strcasestr`: the position of the first case-insensitive occurrence of
      `needle` in `hay`, or None where the C function returns NULL. */
  function StrCaseStr(hay: string, needle: string): (r: Option<nat>)
    ensures r.Some? ==> MatchAt(hay, needle, r.value)
    ensures r.Some? ==> forall j :: 0 <= j < r.value ==> !MatchAt(hay, needle, j)
    ensures r.None? <==> !ContainsNoCase(hay, needle)
  {
    FindFrom(hay, needle, 0)
  }

  // ---------------------------------------------------------------------
  // The component's entry points

  /** A grouping is configured: `groupings` is set or `num_groups` is non-zero. */
  predicate Configured(c: Component)
  {
    c.groupings.Some? || c.numgroups != 0
  }

  /** `component_open`.  `varIndex` is what looking up the `pmix_pnet`
      variable returned (negative when it does not exist) and `value` the
      storage that reading it returned (None for NULL). */
  function Open(c: Component, isServer: bool, varIndex: int, value: Option<VarStorage>): (r: Status)
    ensures r == Success <==>
      Configured(c) && isServer && varIndex >= 0 &&
      value.Some? && value.value.stringval.Some? && value.value.stringval.value != [] &&
      ContainsNoCase(value.value.stringval.value, Name)
  {
    if !Configured(c) || !isServer then Error
    else if varIndex < 0 then Error
    else if value.Some? && value.value.stringval.Some? && value.value.stringval.value != [] then
      if StrCaseStr(value.value.stringval.value, Name).Some? then Success else Error
    else Error
  }

  /** `component_query`: always succeeds, at priority 0, with the sshot module. */
  method Query() returns (status: Status, priority: int, selected: Module)
    ensures status == Success && priority == 0 && selected == SshotModule
  {
    priority := 0;
    selected := SshotModule;
    status := Success;
  }

  /** `component_close`: nothing to release, always succeeds. */
  method Close() returns (status: Status)
    ensures status == Success
  {
    status := Success;
  }

  // ---------------------------------------------------------------------
  // Properties of the gate

  /** The component as built has no grouping, so it refuses to open whatever
      the rest of the environment says. */
  lemma DefaultsRefuse(isServer: bool, varIndex: int, value: Option<VarStorage>)
    ensures Defaults.groupings == None && Defaults.numgroups == 0
    ensures Open(Defaults, isServer, varIndex, value) == Error
  {
  }

  /** Only a server process may open the component. */
  lemma ClientRefused(c: Component, varIndex: int, value: Option<VarStorage>)
    ensures Open(c, false, varIndex, value) == Error
  {
  }

  /** Any set `groupings`, even the empty string, and any non-zero
      `num_groups`, even a negative one, passes the configuration guard: the
      outcome then hinges on the selection variable alone. */
  lemma AnyGroupingPasses(groupings: Option<CString>, numgroups: int, varIndex: int, s: CString)
    requires groupings.Some? || numgroups != 0
    ensures Configured(Component(Some([]), 0)) && Configured(Component(None, -1))
    ensures Open(Component(groupings, numgroups), true, varIndex, Some(VarStorage(Some(s)))) == Success <==>
      varIndex >= 0 && s != [] && ContainsNoCase(s, Name)
  {
  }

  /** A missing selection variable, a NULL value, a NULL string or an empty
      string all refuse. */
  lemma UnsetSelectionRefused(c: Component, isServer: bool, varIndex: int, value: Option<VarStorage>)
    requires varIndex < 0 || value == None || value == Some(VarStorage(None)) ||
             value == Some(VarStorage(Some([])))
    ensures Open(c, isServer, varIndex, value) == Error
  {
  }

  /** The selection matches "sshot" anywhere, in any letter case. */
  lemma SelectionAccepted(c: Component, varIndex: int, s: CString)
    requires Configured(c) && varIndex >= 0
    requires s == "SSHOT" || s == "x,sshot"
    ensures Open(c, true, varIndex, Some(VarStorage(Some(s)))) == Success
  {
    if s == "SSHOT" {
      assert MatchAt(s, Name, 0);
    } else {
      assert MatchAt(s, Name, 2);
    }
  }

  /** A selection that does not spell out "sshot" is refused. */
  lemma SelectionRefused(c: Component, varIndex: int, s: CString)
    requires Configured(c) && varIndex >= 0
    requires s == "ssh" || s == "tcp,ofi"
    ensures Open(c, true, varIndex, Some(VarStorage(Some(s)))) == Error
  {
    if s == "tcp,ofi" {
      assert forall k :: 0 <= k < |s| ==> Fold(s[k]) != Fold(Name[0]);
    }
  }
}
