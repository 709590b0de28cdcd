/**
 * The root layout's configuration check: which environment variables are
 * missing (unset, empty, or still the `your_…` placeholder of the example
 * environment file), and whether the configuration is good enough for the
 * current mode.
 */
module EnvConfig {
  import opened Wrappers

  /** An entry of `missingVars`: the variable's name and whether it is required. */
  datatype MissingVar = MissingVar(key: string, required: bool)

  /** A variable as the loops see it: its name and its value (`None` is `undefined`). */
  type Entry = (string, Option<string>)

  /** `toLowerCase` on one character; only the ASCII capitals have a lower case here. */
  function LowerChar(c: char): char {
    if 'A' <= c <= 'Z' then (c - 'A' + 'a') as char else c
  }

  function ToLower(s: string): string
    decreases |s|
  {
    if s == [] then [] else [LowerChar(s[0])] + ToLower(s[1..])
  }

  lemma {:induction false} ToLowerSpec(s: string)
    ensures |ToLower(s)| == |s|
    ensures forall i :: 0 <= i < |s| ==> ToLower(s)[i] == LowerChar(s[i])
    decreases |s|
  {
    if s != [] {
      ToLowerSpec(s[1..]);
      forall i | 0 < i < |s| ensures ToLower(s)[i] == LowerChar(s[i]) {
        assert ToLower(s)[i] == ToLower(s[1..])[i - 1];
        assert s[1..][i - 1] == s[i];
      }
    }
  }

  /** `split('_').slice(-1)[0]`: the text after the last '_', or all of it when there is none. */
  function LastSegment(s: string): string
    decreases |s|
  {
    if s == [] || s[|s| - 1] == '_' then [] else LastSegment(s[..|s| - 1]) + [s[|s| - 1]]
  }

  /**
   * The last segment is a suffix without '_' and it is all of the text or
   * follows a '_': exactly the last piece `split('_')` produces.
   */
  lemma {:induction false} LastSegmentSpec(s: string)
    ensures var t := LastSegment(s);
      && |t| <= |s| && t == s[|s| - |t|..]
      && (forall i :: 0 <= i < |t| ==> t[i] != '_')
      && (|t| == |s| || s[|s| - |t| - 1] == '_')
    decreases |s|
  {
    if s != [] && s[|s| - 1] != '_' {
      var p := s[..|s| - 1];
      LastSegmentSpec(p);
      var u := LastSegment(p);
      assert LastSegment(s) == u + [s[|s| - 1]];
      assert p[|p| - |u|..] + [s[|s| - 1]] == s[|p| - |u|..];
      if |u| < |p| {
        assert s[|s| - |u| - 2] == p[|p| - |u| - 1];
      }
    }
  }

  /** The value the example environment file gives the variable: `your_` and its last segment in lower case. */
  function Placeholder(key: string): string {
    "your_" + LastSegment(ToLower(key))
  }

  /** `!value || value === placeholder`: unset, empty, or not yet replaced. */
  predicate IsMissing(key: string, value: Option<string>) {
    value.None? || value.value == "" || value.value == Placeholder(key)
  }

  /** The entries one loop pushes for `vars`, in the order the loop visits them. */
  function MissingEntries(vars: seq<Entry>, required: bool): seq<MissingVar>
    decreases |vars|
  {
    if vars == [] then []
    else
      var last := vars[|vars| - 1];
      MissingEntries(vars[..|vars| - 1], required)
        + (if IsMissing(last.0, last.1) then [MissingVar(last.0, required)] else [])
  }

  /**
   * The two loops that build `missingVars`: first over the required
   * variables, then over the optional ones, pushing each missing one.
   */
  method CollectMissingVars(requiredVars: seq<Entry>, optionalVars: seq<Entry>) returns (missingVars: seq<MissingVar>)
    ensures missingVars == MissingEntries(requiredVars, true) + MissingEntries(optionalVars, false)
  {
    missingVars := [];
    var i := 0;
    while i < |requiredVars|
      invariant 0 <= i <= |requiredVars|
      invariant missingVars == MissingEntries(requiredVars[..i], true)
    {
      var (key, value) := requiredVars[i];
      assert requiredVars[..i + 1][..i] == requiredVars[..i];
      if IsMissing(key, value) {
        missingVars := missingVars + [MissingVar(key, true)];
      }
      i := i + 1;
    }
    assert requiredVars[..i] == requiredVars;
    var fromRequired := missingVars;
    var j := 0;
    while j < |optionalVars|
      invariant 0 <= j <= |optionalVars|
      invariant missingVars == fromRequired + MissingEntries(optionalVars[..j], false)
    {
      var (key, value) := optionalVars[j];
      assert optionalVars[..j + 1][..j] == optionalVars[..j];
      if IsMissing(key, value) {
        missingVars := missingVars + [MissingVar(key, false)];
      }
      j := j + 1;
    }
    assert optionalVars[..j] == optionalVars;
  }

  /**
   * A variable is recorded exactly when it is missing, with the loop's
   * `required` flag: a variable set to anything but the empty text and its
   * placeholder never appears.
   */
  lemma {:induction false} MissingEntriesMembership(vars: seq<Entry>, required: bool, m: MissingVar)
    ensures m in MissingEntries(vars, required) <==>
      m.required == required && exists i :: 0 <= i < |vars| && vars[i].0 == m.key && IsMissing(vars[i].0, vars[i].1)
    decreases |vars|
  {
    if vars != [] {
      var p := vars[..|vars| - 1];
      MissingEntriesMembership(p, required, m);
      assert forall i :: 0 <= i < |p| ==> p[i] == vars[i];
      if m in MissingEntries(vars, required) && m !in MissingEntries(p, required) {
        assert vars[|vars| - 1].0 == m.key;
      }
    }
  }

  /** Each loop pushes at most one entry per variable. */
  lemma {:induction false} MissingEntriesLength(vars: seq<Entry>, required: bool)
    ensures |MissingEntries(vars, required)| <= |vars|
    decreases |vars|
  {
    if vars != [] {
      MissingEntriesLength(vars[..|vars| - 1], required);
    }
  }

  /** Every entry a loop pushes carries that loop's flag. */
  lemma {:induction false} MissingEntriesFlag(vars: seq<Entry>, required: bool)
    ensures forall k :: 0 <= k < |MissingEntries(vars, required)| ==> MissingEntries(vars, required)[k].required == required
    decreases |vars|
  {
    if vars != [] {
      MissingEntriesFlag(vars[..|vars| - 1], required);
    }
  }

  /**
   * `missingVars` has at most one entry per variable, and every required
   * entry comes before every optional one.
   */
  lemma MissingVarsShape(requiredVars: seq<Entry>, optionalVars: seq<Entry>)
    ensures var m := MissingEntries(requiredVars, true) + MissingEntries(optionalVars, false);
      && |m| <= |requiredVars| + |optionalVars|
      && forall a, b :: 0 <= a < b < |m| && m[b].required ==> m[a].required
  {
    MissingEntriesLength(requiredVars, true);
    MissingEntriesLength(optionalVars, false);
    MissingEntriesFlag(requiredVars, true);
    MissingEntriesFlag(optionalVars, false);
  }

  /** `missingVars.filter(v => v.required)`. */
  function RequiredOnly(missingVars: seq<MissingVar>): seq<MissingVar>
    decreases |missingVars|
  {
    if missingVars == [] then []
    else (if missingVars[0].required then [missingVars[0]] else []) + RequiredOnly(missingVars[1..])
  }

  /** `hasRequiredVars`: no required entry is missing. */
  predicate HasRequiredVars(missingVars: seq<MissingVar>) {
    |RequiredOnly(missingVars)| == 0
  }

  /** `hasAllVars`: nothing is missing. */
  predicate HasAllVars(missingVars: seq<MissingVar>) {
    |missingVars| == 0
  }

  /** `isValidConfig`: in development only the required variables matter, otherwise all do. */
  predicate IsValidConfig(isDevelopmentMode: bool, missingVars: seq<MissingVar>) {
    if isDevelopmentMode then HasRequiredVars(missingVars) else HasAllVars(missingVars)
  }

  /** The filter is empty exactly when no entry is required. */
  lemma {:induction false} HasRequiredVarsIff(missingVars: seq<MissingVar>)
    ensures HasRequiredVars(missingVars) <==> forall k :: 0 <= k < |missingVars| ==> !missingVars[k].required
    decreases |missingVars|
  {
    if missingVars != [] {
      HasRequiredVarsIff(missingVars[1..]);
      assert forall k :: 1 <= k < |missingVars| ==> missingVars[k] == missingVars[1..][k - 1];
    }
  }

  /** Having every variable implies having the required ones, so production is the stricter mode. */
  lemma AllVarsImpliesRequiredVars(missingVars: seq<MissingVar>)
    ensures HasAllVars(missingVars) ==> HasRequiredVars(missingVars)
    ensures IsValidConfig(false, missingVars) ==> IsValidConfig(true, missingVars)
    ensures missingVars == [] ==> IsValidConfig(true, missingVars) && IsValidConfig(false, missingVars)
  {
    HasRequiredVarsIff(missingVars);
  }

  /**
   * The configuration is valid exactly when no required variable is missing
   * and, outside development, no optional one either.
   */
  lemma ValidConfigIff(isDevelopmentMode: bool, requiredVars: seq<Entry>, optionalVars: seq<Entry>)
    ensures var m := MissingEntries(requiredVars, true) + MissingEntries(optionalVars, false);
      IsValidConfig(isDevelopmentMode, m) <==>
        && (forall i :: 0 <= i < |requiredVars| ==> !IsMissing(requiredVars[i].0, requiredVars[i].1))
        && (!isDevelopmentMode ==>
              forall i :: 0 <= i < |optionalVars| ==> !IsMissing(optionalVars[i].0, optionalVars[i].1))
  {
    var r := MissingEntries(requiredVars, true);
    var o := MissingEntries(optionalVars, false);
    var m := r + o;
    MissingEntriesFlag(requiredVars, true);
    MissingEntriesFlag(optionalVars, false);
    HasRequiredVarsIff(m);
    assert HasRequiredVars(m) <==> r == [] by {
      if r != [] {
        assert m[0] == r[0];
      }
    }
    assert r == [] <==> forall i :: 0 <= i < |requiredVars| ==> !IsMissing(requiredVars[i].0, requiredVars[i].1) by {
      NoneMissingIff(requiredVars, true);
    }
    assert o == [] <==> forall i :: 0 <= i < |optionalVars| ==> !IsMissing(optionalVars[i].0, optionalVars[i].1) by {
      NoneMissingIff(optionalVars, false);
    }
  }

  /** A loop pushes nothing exactly when none of its variables is missing. */
  lemma NoneMissingIff(vars: seq<Entry>, required: bool)
    ensures MissingEntries(vars, required) == [] <==> forall i :: 0 <= i < |vars| ==> !IsMissing(vars[i].0, vars[i].1)
  {
    var m := MissingEntries(vars, required);
    if m != [] {
      MissingEntriesMembership(vars, required, m[0]);
      MissingEntriesFlag(vars, required);
    }
    if exists i :: 0 <= i < |vars| && IsMissing(vars[i].0, vars[i].1) {
      var i :| 0 <= i < |vars| && IsMissing(vars[i].0, vars[i].1);
      MissingEntriesMembership(vars, required, MissingVar(vars[i].0, required));
    }
  }

  /** The one variable the app requires, and it has no optional ones. */
  const ClientIdKey := "EXPO_PUBLIC_THIRDWEB_CLIENT_ID"

  function AppRequiredVars(clientId: Option<string>): seq<Entry> {
    [(ClientIdKey, clientId)]
  }

  const AppOptionalVars: seq<Entry> := []

  /**
   * The app's configuration is valid, in either mode, exactly when the
   * client id is set, not empty and not the placeholder "your_id".
   */
  lemma AppConfigValidIff(isDevelopmentMode: bool, clientId: Option<string>)
    ensures IsValidConfig(isDevelopmentMode,
        MissingEntries(AppRequiredVars(clientId), true) + MissingEntries(AppOptionalVars, false)) <==>
      clientId.Some? && clientId.value != "" && clientId.value != "your_id"
  {
    ClientIdPlaceholder();
    SingleRequiredVarValidIff(isDevelopmentMode, ClientIdKey, clientId);
  }

  /** With one required variable and no optional ones, the configuration is valid exactly when that variable is set. */
  lemma SingleRequiredVarValidIff(isDevelopmentMode: bool, key: string, value: Option<string>)
    ensures IsValidConfig(isDevelopmentMode, MissingEntries([(key, value)], true) + MissingEntries([], false)) <==>
      !IsMissing(key, value)
  {
    ValidConfigIff(isDevelopmentMode, [(key, value)], []);
  }

  lemma {:induction false} ToLowerAppend(a: string, b: string)
    ensures ToLower(a + b) == ToLower(a) + ToLower(b)
    decreases |a|
  {
    if a != [] {
      assert ToLower(a + b) == [LowerChar((a + b)[0])] + ToLower((a + b)[1..]);
      assert (a + b)[0] == a[0];
      assert (a + b)[1..] == a[1..] + b;
      ToLowerAppend(a[1..], b);
      assert [LowerChar(a[0])] + (ToLower(a[1..]) + ToLower(b)) == ToLower(a) + ToLower(b);
    } else {
      assert a + b == b;
    }
  }

  /** Lowering the case keeps '_' and makes no new ones. */
  lemma NoUnderscoreLower(s: string)
    requires forall i :: 0 <= i < |s| ==> s[i] != '_'
    ensures forall i :: 0 <= i < |ToLower(s)| ==> ToLower(s)[i] != '_'
  {
    ToLowerSpec(s);
  }

  /** After a '_', a segment without '_' is the last segment. */
  lemma {:induction false} LastSegmentAfter(p: string, seg: string)
    requires forall i :: 0 <= i < |seg| ==> seg[i] != '_'
    ensures LastSegment(p + "_" + seg) == seg
    decreases |seg|
  {
    var s := p + "_" + seg;
    if seg == [] {
      assert s[|s| - 1] == '_';
    } else {
      var q := seg[..|seg| - 1];
      assert s[..|s| - 1] == p + "_" + q;
      LastSegmentAfter(p, q);
      assert q + [seg[|seg| - 1]] == seg;
    }
  }

  /** A key whose last '_' is followed by `seg` has the placeholder `your_` and `seg` in lower case. */
  lemma PlaceholderOfSegment(key: string, prefix: string, seg: string)
    requires key == prefix + "_" + seg
    requires forall i :: 0 <= i < |seg| ==> seg[i] != '_'
    ensures Placeholder(key) == "your_" + ToLower(seg)
  {
    ToLowerAppend(prefix + "_", seg);
    ToLowerAppend(prefix, "_");
    assert ToLower("_") == "_";
    NoUnderscoreLower(seg);
    LastSegmentAfter(ToLower(prefix), ToLower(seg));
  }

  /** The placeholder of the client id variable is "your_id". */
  lemma ClientIdPlaceholder()
    ensures Placeholder(ClientIdKey) == "your_id"
  {
    assert "your_" + ToLower("ID") == "your_id";
    PlaceholderOfSegment(ClientIdKey, "EXPO_PUBLIC_THIRDWEB_CLIENT", "ID");
  }
}
