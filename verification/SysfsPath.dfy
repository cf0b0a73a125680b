/**
 The path part of the sysfs write guard: canonical components, the canonical
 spelling that is written, and the allowlist match. Purely lexical.
 */
module SysfsPath {
  import opened Wrappers
  import opened Common

  /** The segments between slashes; there is always one more than there are slashes. */
  function Split(path: string): (segments: seq<string>)
    ensures |segments| > 0
  {
    if path == "" then [""]
    else
      var rest := Split(path[1..]);
      if path[0] == '/' then [""] + rest else [[path[0]] + rest[0]] + rest[1..]
  }

  /** Skip empty and "." segments; any ".." refuses the whole path. */
  function Normalize(segments: seq<string>): Option<seq<string>> {
    if segments == [] then Some([]) else
    var n := |segments| - 1;
    var before := Normalize(segments[..n]);
    if before.None? || segments[n] == ".." then None
    else if segments[n] == "" || segments[n] == "." then before
    else Some(before.value + [segments[n]])
  }

  function Components(path: string): Option<seq<string>> {
    if path == "" || path[0] != '/' then None else Normalize(Split(path))
  }

  function Canonical(path: string): Option<string> {
    var c := Components(path);
    if c.None? then None else Some("/" + Join(c.value, "/"))
  }

  method NormalizedComponents(path: string) returns (components: Option<seq<string>>)
    ensures components == Components(path)
  {
    if path == "" || path[0] != '/' {
      return None;
    }
    var segments := Split(path);
    var kept: seq<string> := [];
    for i := 0 to |segments|
      invariant Normalize(segments[..i]) == Some(kept)
    {
      assert segments[..i + 1][..i] == segments[..i];
      if segments[i] == ".." {
        RefusalSticks(segments, i + 1);
        return None;
      }
      if segments[i] != "" && segments[i] != "." {
        kept := kept + [segments[i]];
      }
    }
    assert segments[..|segments|] == segments;
    return Some(kept);
  }

  lemma {:induction false} RefusalSticks(segments: seq<string>, i: nat)
    requires i <= |segments| && Normalize(segments[..i]) == None
    ensures Normalize(segments) == None
    decreases |segments| - i
  {
    if i == |segments| {
      assert segments[..i] == segments;
    } else {
      assert segments[..i + 1][..i] == segments[..i];
      RefusalSticks(segments, i + 1);
    }
  }

  const WILDCARD := "*"

  /** Position of the first wildcard, or the length when there is none. */
  function FirstWildcard(template: seq<string>): (n: nat)
    ensures n <= |template| && (n < |template| ==> template[n] == WILDCARD)
    ensures forall k :: 0 <= k < n ==> template[k] != WILDCARD
  {
    if template == [] || template[0] == WILDCARD then 0 else 1 + FirstWildcard(template[1..])
  }

  predicate Matches(path: seq<string>, template: seq<string>) {
    && |path| == |template|
    && path[..FirstWildcard(template)] == template[..FirstWildcard(template)]
    && forall k :: 0 <= k < |path| ==> template[k] == WILDCARD || path[k] == template[k]
  }

  /** Is the path on this allowlist of templates? */
  predicate IsAllowed(path: string, templates: seq<string>) {
    var c := Components(path);
    c.Some? && exists i :: 0 <= i < |templates| && Components(templates[i]).Some?
                           && Matches(c.value, Components(templates[i]).value)
  }

  method IsAllowedSysfsPath(path: string, templates: seq<string>) returns (allowed: bool)
    ensures allowed == IsAllowed(path, templates)
  {
    var components := NormalizedComponents(path);
    if components.None? {
      return false;
    }
    for i := 0 to |templates|
      invariant forall j :: 0 <= j < i ==> Components(templates[j]).None?
                                           || !Matches(components.value, Components(templates[j]).value)
    {
      var template := NormalizedComponents(templates[i]);
      if template.Some? && Matches(components.value, template.value) {
        assert Components(templates[i]) == template;
        return true;
      }
    }
    return false;
  }

  // ----- what a canonical component list is -----

  predicate IsPlain(segment: string) {
    segment != "" && segment != "." && segment != ".." && '/' !in segment
  }

  lemma {:induction false} SegmentsHaveNoSlash(path: string)
    ensures forall s <- Split(path) :: '/' !in s
  {
    if path != "" {
      SegmentsHaveNoSlash(path[1..]);
      var rest := Split(path[1..]);
      assert rest[0] in rest;
      assert forall s <- rest[1..] :: s in rest;
    }
  }

  lemma {:induction false} NormalizeKeepsPlain(segments: seq<string>)
    requires forall s <- segments :: '/' !in s
    ensures Normalize(segments).Some? ==> forall s <- Normalize(segments).value :: IsPlain(s)
    ensures Normalize(segments).None? <==> ".." in segments
  {
    if segments != [] {
      var n := |segments| - 1;
      assert segments == segments[..n] + [segments[n]];
      assert forall s <- segments[..n] :: s in segments;
      NormalizeKeepsPlain(segments[..n]);
    }
  }

  /** No accepted list holds an empty, "." or ".." component, and a ".." anywhere refuses the path. */
  lemma ComponentsArePlain(path: string)
    ensures Components(path).Some? ==> forall s <- Components(path).value :: IsPlain(s)
    ensures path != "" && path[0] == '/' ==> (Components(path).None? <==> ".." in Split(path))
  {
    if path != "" && path[0] == '/' {
      SegmentsHaveNoSlash(path);
      NormalizeKeepsPlain(Split(path));
    }
  }

  /** Normalising goes segment by segment: accepted parts add up, and one refused part refuses the whole. */
  lemma {:induction false} NormalizeAppends(a: seq<string>, b: seq<string>)
    ensures Normalize(a + b) ==
              if Normalize(a).None? || Normalize(b).None? then None
              else Some(Normalize(a).value + Normalize(b).value)
  {
    if b == [] {
      assert a + b == a;
      assert Normalize(a).Some? ==> Normalize(a).value + [] == Normalize(a).value;
    } else {
      var n := |b| - 1;
      assert (a + b)[..|a + b| - 1] == a + b[..n] && (a + b)[|a + b| - 1] == b[n];
      NormalizeAppends(a, b[..n]);
      if Normalize(a).Some? && Normalize(b[..n]).Some? {
        var kept, more := Normalize(a).value, Normalize(b[..n]).value;
        assert kept + more + [b[n]] == kept + (more + [b[n]]);
      }
    }
  }

  /** One segment: empty and "." vanish, ".." refuses, anything else stays. */
  lemma NormalizeOne(segment: string)
    ensures segment == "" || segment == "." ==> Normalize([segment]) == Some([])
    ensures segment == ".." ==> Normalize([segment]) == None
    ensures segment != "" && segment != "." && segment != ".." ==> Normalize([segment]) == Some([segment])
  {
    var none: seq<string> := [];
    assert [segment][..0] == none && [segment][0] == segment && none + [segment] == [segment];
  }

  /** So a doubled slash or a "." segment anywhere leaves the components as they were. */
  lemma EmptyAndDotVanish(before: seq<string>, segment: string, after: seq<string>)
    requires segment == "" || segment == "."
    ensures Normalize(before + [segment] + after) == Normalize(before + after)
  {
    NormalizeAppends(before + [segment], after);
    NormalizeAppends(before, [segment]);
    NormalizeAppends(before, after);
    NormalizeOne(segment);
  }

  lemma JoinAfterSlash(rest: seq<string>)
    requires rest != []
    ensures Join([""] + rest, "/") == "/" + Join(rest, "/")
  {
    assert ([""] + rest)[1..] == rest;
  }

  lemma JoinAfterChar(c: char, rest: seq<string>)
    requires rest != []
    ensures Join([[c] + rest[0]] + rest[1..], "/") == [c] + Join(rest, "/")
  {
    var segments := [[c] + rest[0]] + rest[1..];
    if |rest| == 1 {
      assert segments == [[c] + rest[0]];
    } else {
      assert segments[1..] == rest[1..];
      assert [c] + rest[0] + "/" + Join(rest[1..], "/") == [c] + (rest[0] + "/" + Join(rest[1..], "/"));
    }
  }

  /** Joining the segments with slashes gives the path back. */
  lemma {:induction false} JoinSplit(path: string)
    ensures Join(Split(path), "/") == path
  {
    if path != "" {
      JoinSplit(path[1..]);
      assert path == [path[0]] + path[1..];
      if path[0] == '/' {
        JoinAfterSlash(Split(path[1..]));
      } else {
        JoinAfterChar(path[0], Split(path[1..]));
      }
    }
  }

  // ----- the canonical spelling -----

  lemma {:induction false} SplitAtSlash(segment: string, rest: string)
    requires '/' !in segment
    ensures Split(segment + "/" + rest) == [segment] + Split(rest)
    ensures Split(segment) == [segment]
  {
    var whole := segment + "/" + rest;
    if segment == "" {
      assert whole[1..] == rest;
    } else {
      assert whole[1..] == segment[1..] + "/" + rest;
      assert segment[0] in segment && forall c <- segment[1..] :: c in segment;
      SplitAtSlash(segment[1..], rest);
      assert [segment[0]] + segment[1..] == segment;
    }
  }

  lemma {:induction false} SplitJoin(segments: seq<string>)
    requires segments != [] && forall s <- segments :: '/' !in s
    ensures Split(Join(segments, "/")) == segments
  {
    assert segments[0] in segments;
    if |segments| == 1 {
      SplitAtSlash(segments[0], "");
    } else {
      assert forall s <- segments[1..] :: s in segments;
      SplitJoin(segments[1..]);
      SplitAtSlash(segments[0], Join(segments[1..], "/"));
      assert [segments[0]] + segments[1..] == segments;
    }
  }

  lemma {:induction false} NormalizePlain(segments: seq<string>)
    requires forall s <- segments :: IsPlain(s)
    ensures Normalize(segments) == Some(segments)
    ensures Normalize([""] + segments) == Some(segments)
  {
    if segments == [] {
      assert Normalize([""][..0]) == Some([]);
    } else {
      var n := |segments| - 1;
      assert segments == segments[..n] + [segments[n]] && segments[n] in segments;
      assert forall s <- segments[..n] :: s in segments;
      NormalizePlain(segments[..n]);
      assert ([""] + segments)[..n + 1] == [""] + segments[..n];
    }
  }

  /** The canonical spelling of a component list has exactly those components. */
  lemma ComponentsOfSpelling(components: seq<string>)
    requires forall s <- components :: IsPlain(s)
    ensures Components("/" + Join(components, "/")) == Some(components)
  {
    var path := "/" + Join(components, "/");
    assert path[1..] == Join(components, "/");
    NormalizePlain(components);
    if components == [] {
      assert Split(path) == ["", ""];
      assert Normalize([""]) == Some([]) by { assert [""][..0] == []; }
      assert ["", ""][..1] == [""];
    } else {
      SplitJoin(components);
      assert Split(path) == [""] + components;
    }
  }

  /** Round trip: what is written has the components that were checked, so canonicalising again changes nothing. */
  lemma CanonicalRoundTrip(path: string)
    requires Canonical(path).Some?
    ensures Components(Canonical(path).value) == Components(path)
    ensures Canonical(Canonical(path).value) == Canonical(path)
  {
    ComponentsArePlain(path);
    ComponentsOfSpelling(Components(path).value);
  }

  /** Two paths have the same canonical spelling exactly when they have the same components. */
  lemma SpellingIsFaithful(p: string, q: string)
    ensures Canonical(p) == Canonical(q) <==> Components(p) == Components(q)
  {
    if Canonical(p).Some? && Canonical(p) == Canonical(q) {
      CanonicalRoundTrip(p);
      CanonicalRoundTrip(q);
    }
  }

  // ----- the allowlist -----

  datatype Refusal = NotCanonical | NotAllowed | BadValue

  /** The guard as a whole: the target it writes to, or why it refuses. `rules` are the value rules of the target. */
  function GuardedTarget(path: string, contents: string, templates: seq<string>, rules: (string, string) -> bool)
    : Result<string, Refusal>
  {
    var target := Canonical(path);
    if target.None? then Err(NotCanonical)
    else if !IsAllowed(target.value, templates) then Err(NotAllowed)
    else if !rules(target.value, contents) then Err(BadValue)
    else Ok(target.value)
  }

  /** Canonicalise, check that spelling, write that spelling. */
  method GuardSysfsWrite(path: string, contents: string, templates: seq<string>, rules: (string, string) -> bool)
    returns (written: Result<string, Refusal>)
    ensures written == GuardedTarget(path, contents, templates, rules)
  {
    var components := NormalizedComponents(path);
    if components.None? {
      return Err(NotCanonical);
    }
    var target := "/" + Join(components.value, "/");
    var allowed := IsAllowedSysfsPath(target, templates);
    if !allowed {
      return Err(NotAllowed);
    }
    if !rules(target, contents) {
      return Err(BadValue);
    }
    return Ok(target);
  }

  /** The guard writes exactly what has components, is allowed and obeys the rules; it refuses the rest. */
  lemma GuardDecides(path: string, contents: string, templates: seq<string>, rules: (string, string) -> bool)
    ensures var c, w := Components(path), GuardedTarget(path, contents, templates, rules);
            && (w == Err(NotCanonical) <==> c.None?)
            && (w == Err(NotAllowed) <==> c.Some? && !IsAllowed(path, templates))
            && (c.Some? && IsAllowed(path, templates) ==>
                  var target := "/" + Join(c.value, "/");
                  w == if rules(target, contents) then Ok(target) else Err(BadValue))
  {
    if Components(path).Some? {
      CanonicalRoundTrip(path);
    }
  }

  /** What is written is what was checked: the components of the given path, spelt canonically, on the allowlist. */
  lemma WrittenIsChecked(path: string, contents: string, templates: seq<string>, rules: (string, string) -> bool)
    requires GuardedTarget(path, contents, templates, rules).Ok?
    ensures var target := GuardedTarget(path, contents, templates, rules).value;
            && Components(target) == Components(path) && Canonical(target) == Some(target)
            && IsAllowed(path, templates) && rules(target, contents)
  {
    CanonicalRoundTrip(path);
  }

  /**
   The decision and the file written depend on the components alone: two paths are
   treated alike for every allowlist, contents and rules if and only if they have
   the same components. And asking about the canonical spelling changes nothing.
   */
  lemma DecisionIgnoresSpelling(p: string, q: string)
    ensures Components(p) == Components(q) <==>
            forall contents, templates, rules ::
              GuardedTarget(p, contents, templates, rules) == GuardedTarget(q, contents, templates, rules)
    ensures Canonical(p).Some? ==>
              forall contents, templates, rules ::
                GuardedTarget(Canonical(p).value, contents, templates, rules)
                == GuardedTarget(p, contents, templates, rules)
  {
    SpellingIsFaithful(p, q);
    if Canonical(p).Some? {
      CanonicalRoundTrip(p);
    }
    if Components(p) != Components(q) {
      SpellingsToldApart(p, q);
    }
  }

  /** An allowlist that holds just the one path tells it from every path with other components. */
  lemma SpellingsToldApart(p: string, q: string)
    requires Components(p) != Components(q)
    ensures exists contents, templates, rules ::
              GuardedTarget(p, contents, templates, rules) != GuardedTarget(q, contents, templates, rules)
  {
    var all := (target: string, contents: string) => true;
    var templates := (if Canonical(p).Some? then [Canonical(p).value] else [])
                     + (if Canonical(q).Some? then [Canonical(q).value] else []);
    SpellingIsFaithful(p, q);
    if Canonical(p).Some? {
      AllowsItself(p, templates, 0);
    }
    if Canonical(q).Some? {
      AllowsItself(q, templates, |templates| - 1);
    }
    assert GuardedTarget(p, "", templates, all) != GuardedTarget(q, "", templates, all);
  }

  lemma AllowsItself(p: string, templates: seq<string>, i: nat)
    requires Canonical(p).Some? && i < |templates| && templates[i] == Canonical(p).value
    ensures IsAllowed(Canonical(p).value, templates)
  {
    CanonicalRoundTrip(p);
    assert Matches(Components(p).value, Components(templates[i]).value);
  }

  /** For a match the separate containment check is implied by the shape check. */
  lemma ContainmentIsImplied(path: seq<string>, template: seq<string>)
    ensures Matches(path, template) <==>
            |path| == |template| && forall k :: 0 <= k < |path| ==> template[k] == WILDCARD || path[k] == template[k]
  {
    if |path| == |template| && forall k :: 0 <= k < |path| ==> template[k] == WILDCARD || path[k] == template[k] {
      var n := FirstWildcard(template);
      assert forall k :: 0 <= k < n ==> path[..n][k] == template[..n][k];
    }
  }

  /** A path is allowed exactly when some template has its length and fixes no other component than its own. */
  lemma AllowedIff(path: string, templates: seq<string>)
    ensures IsAllowed(path, templates) <==>
              && Components(path).Some?
              && exists i :: 0 <= i < |templates| && Components(templates[i]).Some?
                             && Fits(Components(path).value, Components(templates[i]).value)
  {
    if Components(path).Some? {
      var c := Components(path).value;
      forall i | 0 <= i < |templates| && Components(templates[i]).Some?
        ensures Matches(c, Components(templates[i]).value) <==> Fits(c, Components(templates[i]).value)
      {
        ContainmentIsImplied(c, Components(templates[i]).value);
      }
    }
  }

  predicate Fits(path: seq<string>, template: seq<string>) {
    |path| == |template| && forall k :: 0 <= k < |path| ==> template[k] == "*" || path[k] == template[k]
  }

  /** An allowed path lies in its template's literal subtree and is as deep as the template. */
  lemma AllowedStaysInSubtree(path: string, templates: seq<string>) returns (i: nat)
    requires IsAllowed(path, templates)
    ensures i < |templates| && Components(templates[i]).Some? && Components(path).Some?
    ensures var t, c := Components(templates[i]).value, Components(path).value;
            && |c| == |t|
            && c[..FirstWildcard(t)] == t[..FirstWildcard(t)]
            && Join(t[..FirstWildcard(t)], "/") <= Canonical(path).value[1..]
            && forall s <- c :: IsPlain(s)
  {
    i :| 0 <= i < |templates| && Components(templates[i]).Some?
         && Matches(Components(path).value, Components(templates[i]).value);
    ComponentsArePlain(path);
    var c := Components(path).value;
    JoinPrefix(c, FirstWildcard(Components(templates[i]).value));
    assert Canonical(path).value[1..] == Join(c, "/");
  }

  lemma {:induction false} JoinPrefix(segments: seq<string>, n: nat)
    requires n <= |segments|
    ensures Join(segments[..n], "/") <= Join(segments, "/")
  {
    if n > 1 && |segments| > 1 {
      JoinPrefix(segments[1..], n - 1);
      assert segments[..n][1..] == segments[1..][..n - 1];
    }
  }
}
