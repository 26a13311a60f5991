/** The helpers that read sidebar state back from the CSS custom properties
    on the document root. The computed style is an abstract value here: the
    list of property names, or a map from name to value. */
module SidebarCss {
  import opened Common
  import opened SidebarRegistry

  const WidthPrefix: string := "--sidebar-width-"

  /** The filter in `getAllSidebarIds`. */
  predicate IsWidthProperty(p: string)
  {
    WidthPrefix <= p && !Contains(p, "-icon-") && !Contains(p, "-px") && !Contains(p, "-vw")
  }

  /** `property.replace('--sidebar-width-', '')` for a property that starts
      with the prefix: the first occurrence is the prefix itself. */
  function IdOf(p: string): (id: string)
    requires WidthPrefix <= p
    ensures p == WidthPrefix + id
  {
    p[|WidthPrefix|..]
  }

  /** The id a property contributes, if it passes the filter and is not empty. */
  predicate Contributes(p: string, id: string)
  {
    IsWidthProperty(p) && id != "" && IdOf(p) == id
  }

  /** The ids `getAllSidebarIds` collects from the first `|props|` properties,
      as a specification: scan left to right, keep the first sighting. */
  function Collected(props: seq<string>): seq<string>
  {
    if |props| == 0 then []
    else
      var prev := Collected(props[..|props| - 1]);
      var p := props[|props| - 1];
      if IsWidthProperty(p) && IdOf(p) != "" && IdOf(p) !in prev then prev + [IdOf(p)] else prev
  }

  /** An id is collected exactly when some property contributes it. */
  lemma {:induction false} CollectedMember(props: seq<string>, id: string)
    ensures id in Collected(props) <==> exists i :: 0 <= i < |props| && Contributes(props[i], id)
  {
    if |props| > 0 {
      var init := props[..|props| - 1];
      CollectedMember(init, id);
      if exists i :: 0 <= i < |props| && Contributes(props[i], id) {
        var i :| 0 <= i < |props| && Contributes(props[i], id);
        if i < |init| {
          assert init[i] == props[i];
        }
      }
      if exists i :: 0 <= i < |init| && Contributes(init[i], id) {
        var i :| 0 <= i < |init| && Contributes(init[i], id);
        assert props[i] == init[i];
      }
    }
  }

  /** The collected ids never repeat. */
  lemma {:induction false} CollectedNoDuplicates(props: seq<string>)
    ensures NoDuplicates(Collected(props))
  {
    if |props| > 0 {
      CollectedNoDuplicates(props[..|props| - 1]);
    }
  }

  /** The collected ids never repeat and are exactly the non-empty ids of the
      properties that pass the filter. */
  lemma CollectedSound(props: seq<string>)
    ensures NoDuplicates(Collected(props))
    ensures forall id :: id in Collected(props) <==> exists i :: 0 <= i < |props| && Contributes(props[i], id)
  {
    CollectedNoDuplicates(props);
    forall id
      ensures id in Collected(props) <==> exists i :: 0 <= i < |props| && Contributes(props[i], id)
    {
      CollectedMember(props, id);
    }
  }

  /** First-seen order: scanning more properties only appends ids. */
  lemma {:induction false} CollectedExtends(props: seq<string>, n: nat)
    requires n <= |props|
    ensures Collected(props[..n]) <= Collected(props)
    decreases |props| - n
  {
    if n < |props| {
      var init := props[..|props| - 1];
      assert init[..n] == props[..n];
      CollectedExtends(init, n);
      assert props[..|props|] == props;
    } else {
      assert props[..n] == props;
    }
  }

  /** `getAllSidebarIds()`: the loop over the computed style's property names. */
  method GetAllSidebarIds(props: seq<string>) returns (ids: seq<string>)
    ensures ids == Collected(props)
    ensures NoDuplicates(ids)
    ensures forall id :: id in ids <==> exists i :: 0 <= i < |props| && Contributes(props[i], id)
  {
    ids := [];
    for i := 0 to |props|
      invariant ids == Collected(props[..i])
    {
      var property := props[i];
      assert props[..i + 1][..i] == props[..i];
      if WidthPrefix <= property && !Contains(property, "-icon-")
        && !Contains(property, "-px") && !Contains(property, "-vw")
      {
        var id := property[|WidthPrefix|..];
        if id != "" && id !in ids {
          ids := ids + [id];
        }
      }
    }
    assert props[..|props|] == props;
    CollectedSound(props);
  }

  /** A sidebar whose id contains `-px` is never listed, although its width
      variable is present (ids containing `-vw` or `-icon-` fare alike). */
  lemma MarkedIdsAreMissed(id: string, props: seq<string>)
    requires Contains(id, "-px")
    ensures forall i :: 0 <= i < |props| ==> !Contributes(props[i], id)
  {
    forall i | 0 <= i < |props| && IsWidthProperty(props[i]) && IdOf(props[i]) == id
      ensures false
    {
      ContainsSuffix(WidthPrefix, id, "-px");
    }
  }

  /** The prefix ends in `-`, so an id that merely starts with `px`, `vw`
      or `icon-` is never listed either: its property name contains `-px`,
      `-vw` or `-icon-` where the prefix meets the id. */
  lemma PrefixedIdsAreMissed(id: string, props: seq<string>)
    requires "px" <= id || "vw" <= id || "icon-" <= id
    ensures forall i :: 0 <= i < |props| ==> !Contributes(props[i], id)
  {
    var p := WidthPrefix + id;
    var n := |WidthPrefix| - 1;
    assert WidthPrefix[n] == '-';
    if "px" <= id {
      assert p[n..n + 3] == "-px";
      ContainsAt(p, "-px", n);
    } else if "vw" <= id {
      assert p[n..n + 3] == "-vw";
      ContainsAt(p, "-vw", n);
    } else {
      assert p[n..n + 6] == "-icon-";
      ContainsAt(p, "-icon-", n);
    }
  }

  lemma {:induction false} ContainsSuffix(a: string, b: string, sub: string)
    requires Contains(b, sub)
    ensures Contains(a + b, sub)
    decreases |a|
  {
    if |a| == 0 {
      assert a + b == b;
    } else {
      ContainsSuffix(a[1..], b, sub);
      assert (a + b)[1..] == a[1..] + b;
    }
  }

  // ----- Reading single variables -----

  predicate IsSpace(c: char)
  {
    c == ' ' || c == '\t' || c == '\n' || c == '\r' || c == '\U{B}' || c == '\U{C}'
  }

  /** `String.prototype.trim` for ASCII white space. */
  function Trim(s: string): (t: string)
    ensures |t| == 0 || (!IsSpace(t[0]) && !IsSpace(t[|t| - 1]))
    ensures forall c :: c in t ==> c in s
    decreases |s|
  {
    if |s| > 0 && IsSpace(s[0]) then Trim(s[1..])
    else if |s| > 0 && IsSpace(s[|s| - 1]) then Trim(s[..|s| - 1])
    else s
  }

  /** Trim removes exactly the white space around a text: for any padding
      `a` and `b` of white space and a text `t` that neither starts nor ends
      with white space, `Trim(a + t + b) == t`. Every text splits that way,
      so this determines Trim. */
  lemma {:induction false} TrimPadded(a: string, t: string, b: string)
    requires forall k :: 0 <= k < |a| ==> IsSpace(a[k])
    requires forall k :: 0 <= k < |b| ==> IsSpace(b[k])
    requires |t| == 0 || (!IsSpace(t[0]) && !IsSpace(t[|t| - 1]))
    ensures Trim(a + t + b) == t
  {
    TrimFront(a, t + b);
    assert a + t + b == a + (t + b);
    if |t| == 0 {
      assert t + b == b;
      TrimFront(b, "");
      assert b + "" == b;
    } else {
      TrimBack(t, b);
    }
  }

  /** Leading white space is dropped. */
  lemma {:induction false} TrimFront(a: string, r: string)
    requires forall k :: 0 <= k < |a| ==> IsSpace(a[k])
    ensures Trim(a + r) == Trim(r)
    decreases |a|
  {
    if |a| > 0 {
      assert (a + r)[0] == a[0];
      assert (a + r)[1..] == a[1..] + r;
      TrimFront(a[1..], r);
    } else {
      assert a + r == r;
    }
  }

  /** Trailing white space after a text that starts and ends with another
      character is dropped. */
  lemma {:induction false} TrimBack(t: string, b: string)
    requires |t| > 0 && !IsSpace(t[0]) && !IsSpace(t[|t| - 1])
    requires forall k :: 0 <= k < |b| ==> IsSpace(b[k])
    ensures Trim(t + b) == t
    decreases |b|
  {
    var s := t + b;
    assert s[0] == t[0];
    if |b| > 0 {
      assert s[|s| - 1] == b[|b| - 1];
      assert s[..|s| - 1] == t + b[..|b| - 1];
      TrimBack(t, b[..|b| - 1]);
    } else {
      assert s == t;
    }
  }

  /** `getSidebarCSSVariable(id, variable)`: the trimmed value, "" when absent. */
  function ReadVariable(styles: map<string, string>, id: string, variable: string): string
  {
    var name := "--sidebar-" + variable + "-" + id;
    if name in styles then Trim(styles[name]) else ""
  }

  /** `getSidebarState(id)`: any value other than `expanded` reads as collapsed. */
  function GetSidebarState(styles: map<string, string>, id: string): (s: SidebarState)
    ensures s == Expanded <==> ReadVariable(styles, id, "state") == "expanded"
  {
    if ReadVariable(styles, id, "state") == "expanded" then Expanded else Collapsed
  }

  /** `isSidebarOpen(id)`. */
  predicate IsSidebarOpen(styles: map<string, string>, id: string)
  {
    ReadVariable(styles, id, "open") == "1"
  }

  /** `isSidebarMobile(id)`. */
  predicate IsSidebarMobile(styles: map<string, string>, id: string)
  {
    ReadVariable(styles, id, "mobile") == "1"
  }

  function StateText(s: SidebarState): string
  {
    if s == Expanded then "expanded" else "collapsed"
  }

  function Flag(b: bool): string
  {
    if b then "1" else "0"
  }

  /** The state variables the provider's effect writes for the sidebar `id`. */
  function WithStateVariables(styles: map<string, string>, id: string, open: bool, mobile: bool): map<string, string>
  {
    styles["--sidebar-state-" + id := StateText(StateOf(open))]
          ["--sidebar-open-" + id := Flag(open)]
          ["--sidebar-mobile-" + id := Flag(mobile)]
  }

  /** The readers give back what the provider's effect wrote. */
  lemma ReadersRecoverState(styles: map<string, string>, id: string, open: bool, mobile: bool)
    ensures GetSidebarState(WithStateVariables(styles, id, open, mobile), id) == StateOf(open)
    ensures IsSidebarOpen(WithStateVariables(styles, id, open, mobile), id) <==> open
    ensures IsSidebarMobile(WithStateVariables(styles, id, open, mobile), id) <==> mobile
  {
    var w := WithStateVariables(styles, id, open, mobile);
    var st := "--sidebar-state-" + id;
    var op := "--sidebar-open-" + id;
    var mo := "--sidebar-mobile-" + id;
    assert st != op by { assert st[10] != op[10]; }
    assert st != mo by { assert st[10] != mo[10]; }
    assert op != mo by { assert op[10] != mo[10]; }
    assert ("--sidebar-" + "state" + "-" + id) == st;
    assert ("--sidebar-" + "open" + "-" + id) == op;
    assert ("--sidebar-" + "mobile" + "-" + id) == mo;
    assert Trim("expanded") == "expanded";
    assert Trim("collapsed") == "collapsed";
    assert Trim("1") == "1" && Trim("0") == "0";
  }
}
