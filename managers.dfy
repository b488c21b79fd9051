/** The commission rule table kept in the user's session and its add/remove operations
    (src/managers.py, class RulesManager). */
module Rules {

  /** One commission tier: its base rate and the deal size above which the accelerator starts. */
  datatype Tier = Tier(rate: real, threshold: int)

  /** What `add_rule` and `remove_rule` report to the user, without the message text. */
  datatype Message =
    | Added(name: string)
    | MissingName
    | AlreadyExists(name: string)
    | Removed(name: string)
    | NotFound(name: string)
    | LastRule

  /** The rule dictionary as a value, with its key order (a Python dict keeps insertion order). */
  datatype Table = Table(rules: map<string, Tier>, names: seq<string>)

  /** The `(success, message)` pair of an operation, and the table it leaves behind. */
  datatype Reply = Reply(success: bool, message: Message, after: Table)

  /** One user request from the settings page. */
  datatype Command = Add(name: string, rate: real, threshold: int) | Remove(name: string)

  // ---------------------------------------------------------------------------
  // str.strip(): the code points Python treats as whitespace
  // ---------------------------------------------------------------------------

  predicate IsSpace(c: char) {
    var n := c as int;
    || 0x09 <= n <= 0x0D
    || 0x1C <= n <= 0x20
    || n == 0x85 || n == 0xA0 || n == 0x1680
    || 0x2000 <= n <= 0x200A
    || n == 0x2028 || n == 0x2029 || n == 0x202F || n == 0x205F || n == 0x3000
  }

  /** Every character of `s` is whitespace (the empty string included). */
  predicate Blank(s: string) {
    forall i :: 0 <= i < |s| ==> IsSpace(s[i])
  }

  /** `s` without its leading whitespace. */
  function StripLeft(s: string): (r: string)
    ensures |r| <= |s| && r == s[|s| - |r|..]
    ensures Blank(s[..|s| - |r|])
    ensures r == [] || !IsSpace(r[0])
  {
    if |s| > 0 && IsSpace(s[0]) then
      var r := StripLeft(s[1..]);
      assert s[1..][..|s| - 1 - |r|] == s[1..|s| - |r|];
      r
    else s
  }

  /** `s` without its trailing whitespace. */
  function StripRight(s: string): (r: string)
    ensures |r| <= |s| && r == s[..|r|]
    ensures Blank(s[|r|..])
    ensures r == [] || !IsSpace(r[|r| - 1])
  {
    if |s| > 0 && IsSpace(s[|s| - 1]) then
      var r := StripRight(s[..|s| - 1]);
      assert s[..|s| - 1][|r|..] == s[|r|..|s| - 1];
      r
    else s
  }

  /** Python's `s.strip()` with no argument: what is left once the whitespace at both ends
      is gone. */
  function Strip(s: string): (r: string)
    ensures |r| <= |s|
    ensures r == [] || (!IsSpace(r[0]) && !IsSpace(r[|r| - 1]))
  {
    StripRight(StripLeft(s))
  }

  /** What `strip()` keeps is a slice of the input, with only whitespace cut at either end. */
  lemma StripIsTrimmedSlice(s: string)
    ensures var r := Strip(s);
      exists i :: 0 <= i <= |s| - |r| && r == s[i..i + |r|] && Blank(s[..i]) && Blank(s[i + |r|..])
  {
    var l := StripLeft(s);
    var r := StripRight(l);
    var i := |s| - |l|;
    assert r == s[i..i + |r|];
    assert s[i + |r|..] == l[|r|..];
  }

  /** `name.strip()` is falsy exactly when `name` is empty or whitespace only. */
  lemma StripEmptyIffBlank(s: string)
    ensures Strip(s) == [] <==> Blank(s)
  {
  }

  // ---------------------------------------------------------------------------
  // The table and its invariant
  // ---------------------------------------------------------------------------

  predicate Distinct(s: seq<string>) {
    forall i, j :: 0 <= i < j < |s| ==> s[i] != s[j]
  }

  /** The design invariant: at least one tier, and the key order lists every key exactly once. */
  predicate WellFormed(t: Table) {
    && |t.rules| > 0
    && Distinct(t.names)
    && (forall k :: k in t.rules ==> k in t.names)
    && (forall k :: k in t.names ==> k in t.rules)
  }

  /** The three tiers a new session starts with. */
  function DefaultTable(): (t: Table)
    ensures WellFormed(t) && |t.rules| == 3
    ensures t.names == ["standard", "premium", "enterprise"]
    ensures t.rules["standard"] == Tier(0.05, 0)
    ensures t.rules["premium"] == Tier(0.07, 100000)
    ensures t.rules["enterprise"] == Tier(0.10, 500000)
  {
    var m := map["standard" := Tier(0.05, 0), "premium" := Tier(0.07, 100000), "enterprise" := Tier(0.10, 500000)];
    assert m.Keys == {"standard", "premium", "enterprise"};
    Table(m, ["standard", "premium", "enterprise"])
  }

  /** `s` with every occurrence of `x` taken out, the order of the rest kept. */
  function Without(s: seq<string>, x: string): (r: seq<string>)
    ensures forall y :: y in r <==> y in s && y != x
    ensures Distinct(s) ==> Distinct(r)
    ensures Distinct(s) && x in s ==> |r| == |s| - 1
    ensures x !in s ==> r == s
  {
    if s == [] then []
    else if s[0] == x then
      var r := Without(s[1..], x);
      assert Distinct(s) ==> x !in s[1..];
      r
    else
      var r := Without(s[1..], x);
      assert s == [s[0]] + s[1..];
      assert Distinct(s) ==> s[0] !in s[1..];
      [s[0]] + r
  }

  /** Taking a key out of a distinct key order keeps the rest in their relative order, as
      deleting a dictionary key does. */
  lemma {:induction false} WithoutAt(s: seq<string>, i: nat)
    requires Distinct(s) && i < |s|
    ensures Without(s, s[i]) == s[..i] + s[i + 1..]
  {
    if i == 0 {
      assert s[0] !in s[1..];
      assert s[..0] + s[1..] == s[1..];
    } else {
      WithoutAt(s[1..], i - 1);
      assert s[1..][..i - 1] + s[1..][i..] == s[1..i] + s[i + 1..];
      assert s[..i] + s[i + 1..] == [s[0]] + (s[1..i] + s[i + 1..]);
    }
  }

  /** A distinct key order is exactly as long as the key set. */
  lemma {:induction false} DistinctLength(s: seq<string>)
    requires Distinct(s)
    ensures |set k | k in s| == |s|
  {
    if s != [] {
      DistinctLength(s[1..]);
      assert s[0] !in s[1..];
      assert (set k | k in s) == {s[0]} + (set k | k in s[1..]);
    }
  }

  /** `get_rules_list` lists as many names as there are rules. */
  lemma NamesCoverRules(t: Table)
    requires WellFormed(t)
    ensures |t.names| == |t.rules|
  {
    DistinctLength(t.names);
    assert (set k | k in t.names) == t.rules.Keys;
  }

  // ---------------------------------------------------------------------------
  // add_rule and remove_rule as functions of the table
  // ---------------------------------------------------------------------------

  /** The reply and new table of `add_rule(name, rate, threshold)`. */
  function AddResult(t: Table, name: string, rate: real, threshold: int): (r: Reply)
    ensures r.success <==> !Blank(name) && name !in t.rules
    ensures Blank(name) ==> r.message == MissingName
    ensures !Blank(name) && name in t.rules ==> r.message == AlreadyExists(name)
    ensures r.success ==> r.message == Added(name)
    ensures !r.success ==> r.after == t
    ensures r.success ==> && r.after.rules == t.rules[name := Tier(rate, threshold)]
                          && r.after.rules.Keys == t.rules.Keys + {name}
                          && |r.after.rules| == |t.rules| + 1
                          && r.after.names == t.names + [name]
    ensures WellFormed(t) ==> WellFormed(r.after)
  {
    StripEmptyIffBlank(name);
    if Strip(name) != [] && name !in t.rules then
      Reply(true, Added(name), Table(t.rules[name := Tier(rate, threshold)], t.names + [name]))
    else if Strip(name) == [] then
      Reply(false, MissingName, t)
    else
      Reply(false, AlreadyExists(name), t)
  }

  /** The reply and new table of `remove_rule(name)`. */
  function RemoveResult(t: Table, name: string): (r: Reply)
    ensures r.success <==> |t.rules| > 1 && name in t.rules
    ensures |t.rules| <= 1 ==> r.message == LastRule
    ensures |t.rules| > 1 && name !in t.rules ==> r.message == NotFound(name)
    ensures r.success ==> r.message == Removed(name)
    ensures !r.success ==> r.after == t
    ensures r.success ==> && r.after.rules == t.rules - {name}
                          && r.after.rules.Keys == t.rules.Keys - {name}
                          && |r.after.rules| == |t.rules| - 1
                          && r.after.names == Without(t.names, name)
    ensures WellFormed(t) ==> WellFormed(r.after)
  {
    if |t.rules| > 1 then
      if name in t.rules then
        var m := t.rules - {name};
        assert m.Keys == t.rules.Keys - {name};
        Reply(true, Removed(name), Table(m, Without(t.names, name)))
      else
        Reply(false, NotFound(name), t)
    else
      Reply(false, LastRule, t)
  }

  /** The key is stored as typed: a name with surrounding whitespace is not stored stripped. */
  lemma AddKeepsNameUnstripped(t: Table, name: string, rate: real, threshold: int)
    requires !Blank(name) && name !in t.rules
    requires Strip(name) != name && Strip(name) !in t.rules
    ensures var r := AddResult(t, name, rate, threshold);
      && r.success && name in r.after.rules && Strip(name) !in r.after.rules
  {
  }

  function Execute(t: Table, c: Command): Reply {
    match c
    case Add(name, rate, threshold) => AddResult(t, name, rate, threshold)
    case Remove(name) => RemoveResult(t, name)
  }

  /** The table after a run of requests, each applied to the table the previous one left. */
  function ExecuteAll(t: Table, cs: seq<Command>): Table
    decreases |cs|
  {
    if cs == [] then t else ExecuteAll(Execute(t, cs[0]).after, cs[1..])
  }

  /** No run of add/remove requests can break the invariant: the table stays non-empty and its
      key order keeps listing each key once. */
  lemma {:induction false} ExecuteAllKeepsWellFormed(t: Table, cs: seq<Command>)
    requires WellFormed(t)
    ensures WellFormed(ExecuteAll(t, cs))
    decreases |cs|
  {
    if cs != [] {
      ExecuteAllKeepsWellFormed(Execute(t, cs[0]).after, cs[1..]);
    }
  }

  /** Starting from the defaults, any run of requests leaves at least one tier, and the key
      order lists exactly the keys. */
  lemma FromDefaultsNeverEmpty(cs: seq<Command>)
    ensures var t := ExecuteAll(DefaultTable(), cs);
      && |t.rules| > 0
      && |t.names| == |t.rules|
      && (forall k :: k in t.rules <==> k in t.names)
  {
    ExecuteAllKeepsWellFormed(DefaultTable(), cs);
    NamesCoverRules(ExecuteAll(DefaultTable(), cs));
  }

  // ---------------------------------------------------------------------------
  // The session-scoped manager
  // ---------------------------------------------------------------------------

  /** RulesManager over the session state: `initialized` says whether `commission_rules` is
      present in the session, `rules` is that dictionary and `names` its key order. */
  class RulesManager {
    var initialized: bool
    var rules: map<string, Tier>
    var names: seq<string>

    ghost predicate Valid()
      reads this
    {
      initialized && WellFormed(Table(rules, names))
    }

    ghost function Snapshot(): Table
      reads this
    {
      Table(rules, names)
    }

    /** A manager created in a fresh session seeds the defaults. */
    constructor ()
      ensures Valid() && Snapshot() == DefaultTable()
    {
      initialized := false;
      rules := map[];
      names := [];
      new;
      InitializeRules();
    }

    /** Seeds the defaults only when the session holds no rules yet; otherwise changes nothing,
        so a second call is a no-op. */
    method InitializeRules()
      modifies this
      ensures initialized
      ensures old(initialized) ==> Snapshot() == old(Snapshot())
      ensures !old(initialized) ==> Snapshot() == DefaultTable()
      ensures old(Valid()) || !old(initialized) ==> Valid()
    {
      if !initialized {
        var d := DefaultTable();
        initialized, rules, names := true, d.rules, d.names;
      }
    }

    method GetRules() returns (r: map<string, Tier>)
      requires initialized
      ensures r == rules
    {
      r := rules;
    }

    /** The tier names in dictionary order: each key once, and nothing else. */
    method GetRulesList() returns (r: seq<string>)
      requires Valid()
      ensures r == names
      ensures Distinct(r) && |r| == |rules|
      ensures forall k :: k in r <==> k in rules
    {
      NamesCoverRules(Table(rules, names));
      r := names;
    }

    method AddRule(name: string, rate: real, threshold: int) returns (success: bool, message: Message)
      requires Valid()
      modifies this
      ensures Valid()
      ensures var r := AddResult(old(Snapshot()), name, rate, threshold);
        success == r.success && message == r.message && Snapshot() == r.after
    {
      if Strip(name) != [] && name !in rules {
        rules := rules[name := Tier(rate, threshold)];
        names := names + [name];
        success, message := true, Added(name);
      } else if Strip(name) == [] {
        success, message := false, MissingName;
      } else {
        success, message := false, AlreadyExists(name);
      }
      assert WellFormed(AddResult(old(Snapshot()), name, rate, threshold).after);
    }

    method RemoveRule(name: string) returns (success: bool, message: Message)
      requires Valid()
      modifies this
      ensures Valid()
      ensures var r := RemoveResult(old(Snapshot()), name);
        success == r.success && message == r.message && Snapshot() == r.after
    {
      var current := GetRules();
      if |current| > 1 {
        if name in current {
          rules := rules - {name};
          names := Without(names, name);
          success, message := true, Removed(name);
        } else {
          success, message := false, NotFound(name);
        }
      } else {
        success, message := false, LastRule;
      }
      assert WellFormed(RemoveResult(old(Snapshot()), name).after);
    }
  }
}
