/** The string and record logic of the connect script (src/aws_connect.py):
    profile names read from the AWS config text, the labels of the instance
    menu, the instance id read back from a label, the preview text of an
    instance, the profile and instance the run settles on, and the commands it
    hands to the external `aws` / `aws-vault` tools. File, process, menu and
    JSON handling are the caller's: their results arrive here as parameters. */
module AwsConnect {
  import opened Common
  import opened Text
  import opened Patterns

  // ------------------------------------------------------------ records

  datatype Tag = Tag(key: string, value: string)

  /** The fields of one entry of `Reservations[*].Instances` that the script
      reads; a missing `PrivateIpAddress` or `Tags` key is None. */
  datatype Instance = Instance(
    id: string,
    instanceType: string,
    state: string,
    zone: string,
    launchTime: string,
    privateIp: Option<string>,
    tags: Option<seq<Tag>>)

  /** `Reservations`: each reservation holds its instances. */
  type Reservations = seq<seq<Instance>>

  /** All instances, reservation by reservation, in order. */
  function Flatten(reservations: Reservations): seq<Instance>
    decreases |reservations|
  {
    if reservations == [] then []
    else Flatten(reservations[..|reservations| - 1]) + reservations[|reservations| - 1]
  }

  lemma {:induction false} FlattenAppend(a: Reservations, b: Reservations)
    ensures Flatten(a + b) == Flatten(a) + Flatten(b)
    decreases |b|
  {
    if b == [] {
      assert a + b == a;
    } else {
      var last := |b| - 1;
      assert (a + b)[..|a + b| - 1] == a + b[..last];
      FlattenAppend(a, b[..last]);
    }
  }

  // ----------------------------------------------------------- profiles

  /** `hidden_environments`: profiles never offered. */
  const HiddenEnvironments: seq<string> := [""]

  /** `scary_environments`: profiles that need a confirmation. */
  const ScaryEnvironments: seq<string> := ["production"]

  /** The profile names found in the config lines: the first
      `[profile NAME]` of each line, in line order. */
  function ProfileNames(lines: seq<string>): (names: seq<string>)
    ensures |names| <= |lines|
    ensures forall n :: n in names ==> IsProfileName(n)
    decreases |lines|
  {
    if lines == [] then []
    else
      var init := ProfileNames(lines[..|lines| - 1]);
      var line := lines[|lines| - 1];
      match Search(line, ProfilePattern)
      case None => init
      case Some(name) =>
        ProfileSearchSound(line);
        init + [name]
  }

  /** The loop that collects the profiles from the config text; the hidden
      environment check never removes a name, since none is empty. */
  method ExtractProfiles(text: string) returns (profiles: seq<string>)
    ensures profiles == ProfileNames(SplitLines(text))
  {
    var lines := SplitLines(text);
    profiles := [];
    for i := 0 to |lines|
      invariant profiles == ProfileNames(lines[..i])
    {
      assert lines[..i + 1][..i] == lines[..i];
      var found := Search(lines[i], ProfilePattern);
      if found.Some? {
        ProfileSearchSound(lines[i]);
        if found.value !in HiddenEnvironments {
          profiles := profiles + [found.value];
        }
      }
    }
    assert lines[..|lines|] == lines;
  }

  /** Profiles keep the order of their lines: the names of a config made of two
      parts are the first part's names followed by the second part's. */
  lemma {:induction false} ProfileNamesAppend(a: seq<string>, b: seq<string>)
    ensures ProfileNames(a + b) == ProfileNames(a) + ProfileNames(b)
    decreases |b|
  {
    if b == [] {
      assert a + b == a;
    } else {
      var last := |b| - 1;
      assert (a + b)[..|a + b| - 1] == a + b[..last];
      assert (a + b)[|a + b| - 1] == b[last];
      ProfileNamesAppend(a, b[..last]);
    }
  }

  /** No profile comes out exactly when no line holds a `[profile NAME]`. */
  lemma {:induction false} NoProfileLines(lines: seq<string>)
    ensures ProfileNames(lines) == [] <==>
      forall k :: 0 <= k < |lines| ==> Search(lines[k], ProfilePattern) == None
    decreases |lines|
  {
    if lines != [] {
      var init := lines[..|lines| - 1];
      NoProfileLines(init);
      assert forall k :: 0 <= k < |init| ==> init[k] == lines[k];
    }
  }

  /** A text without line boundaries is one line. */
  lemma SingleLine(s: string)
    requires s != [] && NoLineBreak(s)
    ensures SplitLines(s) == [s]
  {
    RunLengthUnique(s, 0, |s|, NotLineBreak);
  }

  /** The names of a one-line config: the line's profile, if it has one. */
  lemma ProfileNamesOfLine(line: string)
    ensures ProfileNames([line]) == match Search(line, ProfilePattern) case None => [] case Some(n) => [n]
  {
    assert [line][..0] == [];
  }

  /** The config "[profile test]" offers the profile "test". */
  lemma ProfileFromHeader()
    ensures ProfileNames(SplitLines("[profile test]")) == ["test"]
  {
    HeaderIsOneLine();
    TestHeader();
    ProfileNamesOfLine("[profile test]");
  }

  lemma HeaderIsOneLine()
    ensures SplitLines("[profile test]") == ["[profile test]"]
  {
    SingleLine("[profile test]");
  }

  lemma TestHeader()
    ensures Search("[profile test]", ProfilePattern) == Some("test")
  {
    assert IsProfileName("test");
    ProfileHeaderRoundTrip("test", "");
    HeaderLiteral();
  }

  lemma HeaderLiteral()
    ensures "[profile " + "test" + "]" + "" == "[profile test]"
  {
    assert "[profile " + "test" == "[profile test";
  }

  /** The config "[test]" offers no profile. */
  lemma NoProfileFromBareSection()
    ensures ProfileNames(SplitLines("[test]")) == []
  {
    SingleLine("[test]");
    ShortLineHasNoProfile("[test]");
    ProfileNamesOfLine("[test]");
  }

  /** Where the profile comes from (src/aws_connect.py:116-150). */
  datatype ProfileResolution =
    | UseProfile(name: string)
      /** AWS_PROFILE unset and no `aws` executable: the profile is None,
          and the later command building fails on it. */
    | ProfileUnset
      /** The config file could not be read: "No profiles found", exit. */
    | NoProfilesFound
      /** The menu was dismissed (it returned None): "Ok, Bye.", exit. */
    | MenuDismissed
      /** `profiles[profile_index]` out of range: IndexError, not caught. */
    | ProfileIndexError

  /** `envProfile` is AWS_PROFILE, `awsExecutable` whether `aws` is on the
      PATH, `config` the config file's text (None when reading it fails) and
      `menuChoice` what the profile menu returned (0 when not interactive). */
  function ResolveProfile(envProfile: Option<string>, awsExecutable: bool,
                          config: Option<string>, menuChoice: Option<nat>): ProfileResolution
  {
    if (envProfile.None? || envProfile.value == "") && awsExecutable then
      match config
      case None => NoProfilesFound
      case Some(text) =>
        var profiles := ProfileNames(SplitLines(text));
        match menuChoice
        case None => MenuDismissed
        case Some(i) => if i < |profiles| then UseProfile(profiles[i]) else ProfileIndexError
    else
      match envProfile
      case None => ProfileUnset
      case Some(p) => UseProfile(p)
  }

  /** A non-empty AWS_PROFILE wins over the config file. */
  lemma EnvironmentProfileWins(p: string, awsExecutable: bool, config: Option<string>, menuChoice: Option<nat>)
    requires p != ""
    ensures ResolveProfile(Some(p), awsExecutable, config, menuChoice) == UseProfile(p)
  {
  }

  /** Without AWS_PROFILE and not interactive, the run takes the first profile
      of the config, a valid profile name; a config without profile headers
      ends in the uncaught IndexError. */
  lemma NonInteractiveProfile(text: string)
    ensures var names := ProfileNames(SplitLines(text));
      ResolveProfile(None, true, Some(text), Some(0)) ==
        if names == [] then ProfileIndexError else UseProfile(names[0])
    ensures (forall k :: 0 <= k < |SplitLines(text)| ==> Search(SplitLines(text)[k], ProfilePattern) == None) ==>
      ResolveProfile(None, true, Some(text), Some(0)) == ProfileIndexError
    ensures ResolveProfile(None, true, Some(text), Some(0)).UseProfile? ==>
      IsProfileName(ResolveProfile(None, true, Some(text), Some(0)).name)
  {
    NoProfileLines(SplitLines(text));
    var names := ProfileNames(SplitLines(text));
    if names != [] {
      assert names[0] in names;
    }
  }

  /** The menu highlight: "bg_green", or for a scary profile "bg_red" once
      confirmed; None when the confirmation is declined and the run ends. */
  function HighlightStyle(profile: string, confirmed: bool): (style: Option<string>)
    ensures style.None? <==> profile == "production" && !confirmed
    ensures style == Some("bg_red") <==> profile == "production" && confirmed
    ensures style == Some("bg_green") <==> profile != "production"
  {
    if profile in ScaryEnvironments then
      if confirmed then Some("bg_red") else None
    else Some("bg_green")
  }

  // ------------------------------------------------------------- labels

  /** The position of the last tag whose Key is "Name", if any. */
  function LastNameTag(tags: seq<Tag>): (r: Option<nat>)
    ensures r.None? <==> forall k :: 0 <= k < |tags| ==> tags[k].key != "Name"
    ensures r.Some? ==> r.value < |tags| && tags[r.value].key == "Name"
    ensures r.Some? ==> forall k :: r.value < k < |tags| ==> tags[k].key != "Name"
    decreases |tags|
  {
    if tags == [] then None
    else if tags[|tags| - 1].key == "Name" then Some(|tags| - 1)
    else LastNameTag(tags[..|tags| - 1])
  }

  /** The name the tag loop ends with: the Value of the last Name tag, or "". */
  function NameTagValue(tags: seq<Tag>): string
  {
    match LastNameTag(tags)
    case None => ""
    case Some(k) => tags[k].value
  }

  /** The name shown for an instance: its Name tag, "NONAME" when it has no
      tags, no Name tag, or an empty one. */
  function DisplayName(inst: Instance): string
  {
    var name := match inst.tags case None => "" case Some(tags) => NameTagValue(tags);
    if name == "" then "NONAME" else name
  }

  /** The loop over an instance's tags: each Name tag overwrites the name. */
  method ReadName(inst: Instance) returns (name: string)
    ensures name == DisplayName(inst)
    ensures name != ""
  {
    name := "";
    if inst.tags.Some? {
      var tags := inst.tags.value;
      for i := 0 to |tags|
        invariant name == NameTagValue(tags[..i])
      {
        assert tags[..i + 1][..i] == tags[..i];
        if tags[i].key == "Name" {
          name := tags[i].value;
        }
      }
      assert tags[..|tags|] == tags;
    }
    if name == "" {
      name := "NONAME";
    }
  }

  /** `f'{name:<30s} ({id:<15s})'` */
  function Label(name: string, id: string): string
  {
    PadRight(name, 30) + " (" + PadRight(id, 15) + ")"
  }

  function InstanceLabel(inst: Instance): string
  {
    Label(DisplayName(inst), inst.id)
  }

  /** One label per instance, in the same order. */
  function LabelsOf(instances: seq<Instance>): seq<string>
  {
    seq(|instances|, k requires 0 <= k < |instances| => InstanceLabel(instances[k]))
  }

  lemma LabelsOfSnoc(instances: seq<Instance>, inst: Instance)
    ensures LabelsOf(instances + [inst]) == LabelsOf(instances) + [InstanceLabel(inst)]
  {
  }

  /** One more instance of a reservation, one more label. */
  lemma LabelsStep(before: seq<Instance>, instances: seq<Instance>, j: nat)
    requires j < |instances|
    ensures LabelsOf(before + instances[..j + 1]) ==
      LabelsOf(before + instances[..j]) + [InstanceLabel(instances[j])]
  {
    assert before + instances[..j + 1] == (before + instances[..j]) + [instances[j]];
    LabelsOfSnoc(before + instances[..j], instances[j]);
  }

  lemma FlattenSnoc(reservations: Reservations, r: nat)
    requires r < |reservations|
    ensures Flatten(reservations[..r + 1]) == Flatten(reservations[..r]) + reservations[r]
  {
    assert reservations[..r + 1][..r] == reservations[..r];
  }

  /** The loops that build the menu entries: reservation by reservation,
      instance by instance. */
  method BuildLabels(reservations: Reservations) returns (items: seq<string>)
    ensures items == LabelsOf(Flatten(reservations))
  {
    items := [];
    for r := 0 to |reservations|
      invariant items == LabelsOf(Flatten(reservations[..r]))
    {
      var instances := reservations[r];
      ghost var before := Flatten(reservations[..r]);
      for j := 0 to |instances|
        invariant items == LabelsOf(before + instances[..j])
      {
        var inst := instances[j];
        var name := ReadName(inst);
        LabelsStep(before, instances, j);
        items := items + [Label(name, inst.id)];
      }
      assert instances[..|instances|] == instances;
      FlattenSnoc(reservations, r);
    }
    assert reservations[..|reservations|] == reservations;
  }

  /** Where each part of a label sits: the name first and never cut, then
      spaces up to column 30 at least, " (", the id and its padding, ")". */
  lemma LabelLayout(name: string, id: string)
    ensures var entry := Label(name, id);
      var paren := |PadRight(name, 30)| + 1;
      && paren >= 31 && paren >= |name| + 1
      && |entry| == paren + 1 + |PadRight(id, 15)| + 1
      && |entry| >= paren + 1 + |id| + 1
      && (forall i :: 0 <= i < |name| ==> entry[i] == name[i])
      && (forall i :: |name| <= i < paren ==> entry[i] == ' ')
      && entry[paren] == '('
      && (forall i :: 0 <= i < |id| ==> entry[paren + 1 + i] == id[i])
      && (forall i :: paren + 1 + |id| <= i < |entry| - 1 ==> entry[i] == ' ')
      && entry[|entry| - 1] == ')'
  {
    var p := PadRight(name, 30);
    var q := PadRight(id, 15);
    assert Label(name, id) == (p + " (") + (q + ")");
    PaddedHead(name, p + " (", q + ")");
    PaddedTail(id, p + " (", q + ")");
  }

  /** The head of `head + rest`, where `head` is `name` padded, then " (". */
  lemma PaddedHead(name: string, head: string, rest: string)
    requires head == PadRight(name, 30) + " ("
    ensures var entry := head + rest;
      var paren := |head| - 1;
      && (forall i :: 0 <= i < |name| ==> entry[i] == name[i])
      && (forall i :: |name| <= i < paren ==> entry[i] == ' ')
      && entry[paren] == '('
  {
    var p := PadRight(name, 30);
    var entry := head + rest;
    forall i | 0 <= i < |name|
      ensures entry[i] == name[i]
    {
      assert entry[i] == p[i];
      assert p[i] == p[..|name|][i];
    }
    forall i | |name| <= i < |head| - 1
      ensures entry[i] == ' '
    {
      if i < |p| { assert entry[i] == p[i]; }
    }
  }

  /** The tail of `head + rest`, where `rest` is `id` padded, then ")". */
  lemma PaddedTail(id: string, head: string, rest: string)
    requires rest == PadRight(id, 15) + ")"
    ensures var entry := head + rest;
      var q := PadRight(id, 15);
      && (forall i :: 0 <= i < |id| ==> entry[|head| + i] == id[i])
      && (forall i :: |head| + |id| <= i < |entry| - 1 ==> entry[i] == ' ')
      && entry[|entry| - 1] == ')'
  {
    var q := PadRight(id, 15);
    var entry := head + rest;
    forall i | 0 <= i < |id|
      ensures entry[|head| + i] == id[i]
    {
      assert entry[|head| + i] == q[i];
      assert q[i] == q[..|id|][i];
    }
    forall i | |head| + |id| <= i < |entry| - 1
      ensures entry[i] == ' '
    {
      assert entry[i] == q[i - |head|];
    }
  }

  // ------------------------------------------------------ instance ids

  /** `re.search(instance_regex, label).group(1)` with the pattern as the
      script writes it (None where there is no match). */
  function InstanceIdAsWritten(entry: string): Option<string>
  {
    Search(entry, IdPattern)
  }

  /** The instance id read back from an entry, tolerating the padding before
      the closing parenthesis. */
  function InstanceIdOf(entry: string): Option<string>
  {
    Search(entry, PaddedIdPattern)
  }

  /** A label is its name, at least one space, "(" and the rest. */
  lemma LabelShape(name: string, id: string)
    ensures |PadRight(name, 30)| + 1 > |name|
    ensures Label(name, id) ==
      name + Spaces(|PadRight(name, 30)| + 1 - |name|) + "(" + (PadRight(id, 15) + ")")
  {
    var p := PadRight(name, 30);
    assert p == name + p[|name|..];
    assert p[|name|..] + " " == Spaces(|p| + 1 - |name|);
  }

  /** A position of `a` where `pat` does not match does not start a match
      once spaces and "(" are appended: the appended text can neither extend
      the captured run nor supply the ")". */
  lemma AppendedNoMatch(a: string, m: nat, rest: string, pat: Pattern, p: nat)
    requires pat == IdPattern || pat == PaddedIdPattern
    requires m >= 1 && p <= |a|
    requires p == |a| || MatchAt(a, p, pat).None?
    ensures MatchAt(a + Spaces(m) + "(" + rest, p, pat).None?
  {
    var s := a + Spaces(m) + "(" + rest;
    assert forall k :: 0 <= k < |a| ==> s[k] == a[k];
    assert forall k :: |a| <= k < |a| + m ==> s[k] == ' ';
    assert s[|a| + m] == '(';
    assert s[p..p + 1] == [s[p]];
    if p < |a| && s[p] == '(' {
      assert a[p..p + 1] == [a[p]];
      if pat == IdPattern {
        AppendedRunPlain(a, s, p);
      } else {
        AppendedRunPadded(a, s, m, p);
      }
    }
  }

  lemma AppendedRunPlain(a: string, s: string, p: nat)
    requires p < |a| < |s|
    requires forall k :: 0 <= k < |a| ==> s[k] == a[k]
    requires s[|a|] == ' '
    requires a[p..p + 1] == "(" && s[p..p + 1] == "("
    requires MatchAt(a, p, IdPattern).None?
    ensures MatchAt(s, p, IdPattern).None?
  {
    var n := RunLength(a, p + 1, IsIdChar);
    IdNoneFacts(a, p, n);
    PlainRun(a, s, p, n);
  }

  lemma AppendedRunPadded(a: string, s: string, m: nat, p: nat)
    requires m >= 1 && p < |a| && |a| + m < |s|
    requires forall k :: 0 <= k < |a| ==> s[k] == a[k]
    requires forall k :: |a| <= k < |a| + m ==> s[k] == ' '
    requires s[|a| + m] == '('
    requires a[p..p + 1] == "(" && s[p..p + 1] == "("
    requires MatchAt(a, p, PaddedIdPattern).None?
    ensures MatchAt(s, p, PaddedIdPattern).None?
  {
    var n := RunLength(a, p + 1, IsIdChar);
    var sp := RunLength(a, p + 1 + n, IsSpace);
    PaddedIdNoneFacts(a, p, n, sp);
    PaddedRun(a, s, m, p, n, sp);
  }

  /** The run after "(" in `a` is the run in `s`, which extends `a` with a
      space: the match fails in `s` as it did in `a`. */
  lemma PlainRun(a: string, s: string, p: nat, n: nat)
    requires p < |a| < |s|
    requires forall k :: 0 <= k < |a| ==> s[k] == a[k]
    requires s[|a|] == ' '
    requires s[p..p + 1] == "("
    requires RunLength(a, p + 1, IsIdChar) == n
    requires n > 0 && p + 1 + n < |a| ==> a[p + 1 + n] != ')'
    ensures MatchAt(s, p, IdPattern).None?
  {
    var e := p + 1 + n;
    if e < |a| {
      assert s[e] == a[e];
    }
    IdRunKept(a, s, p, n);
    IdNoCloser(s, p, n);
  }

  /** The same for the padded pattern, where `s` extends `a` with `m` spaces
      and "(": the spaces may lengthen the padding, but "(" is no closer. */
  lemma PaddedRun(a: string, s: string, m: nat, p: nat, n: nat, sp: nat)
    requires m >= 1 && p < |a| && |a| + m < |s|
    requires forall k :: 0 <= k < |a| ==> s[k] == a[k]
    requires forall k :: |a| <= k < |a| + m ==> s[k] == ' '
    requires s[|a| + m] == '('
    requires s[p..p + 1] == "("
    requires RunLength(a, p + 1, IsIdChar) == n
    requires p + 1 + n <= |a| && RunLength(a, p + 1 + n, IsSpace) == sp
    requires n > 0 && p + 1 + n + sp < |a| ==> a[p + 1 + n + sp] != ')'
    ensures MatchAt(s, p, PaddedIdPattern).None?
  {
    var e := p + 1 + n;
    if e < |a| { assert s[e] == a[e]; } else { assert s[e] == ' '; }
    IdRunKept(a, s, p, n);
    if e + sp < |a| {
      PaddedRunInside(a, s, p, n, sp);
    } else {
      PaddedRunThrough(a, s, m, p, n);
    }
  }

  /** PaddedRun when the padding runs to the end of `a`: it goes on through
      the appended spaces and stops at "(", which is no closer. */
  lemma PaddedRunThrough(a: string, s: string, m: nat, p: nat, n: nat)
    requires p + 1 + n <= |a| && |a| + m < |s|
    requires forall k :: 0 <= k < |a| ==> s[k] == a[k]
    requires forall k :: |a| <= k < |a| + m ==> s[k] == ' '
    requires s[|a| + m] == '('
    requires RunLength(s, p + 1, IsIdChar) == n
    requires p + 1 + n + RunLength(a, p + 1 + n, IsSpace) == |a|
    ensures MatchAt(s, p, PaddedIdPattern).None?
  {
    SpaceRunThrough(a, s, p + 1 + n, m);
    PaddedIdNoCloser(s, p, n, |a| + m - (p + 1 + n));
  }

  /** A run of id characters in `a` stays the same run in `s`, which extends
      `a`, when the character after it in `s` ends it too. */
  lemma IdRunKept(a: string, s: string, p: nat, n: nat)
    requires p + 1 + n <= |a| < |s|
    requires forall k :: 0 <= k < |a| ==> s[k] == a[k]
    requires RunLength(a, p + 1, IsIdChar) == n
    requires !IsIdChar(s[p + 1 + n])
    ensures RunLength(s, p + 1, IsIdChar) == n
  {
    forall k | p + 1 <= k < p + 1 + n
      ensures IsIdChar(s[k])
    {
      assert s[k] == a[k];
    }
    RunLengthUnique(s, p + 1, p + 1 + n, IsIdChar);
  }

  /** PaddedRun when the padding ends inside `a`. */
  lemma PaddedRunInside(a: string, s: string, p: nat, n: nat, sp: nat)
    requires p + 1 + n + sp < |a| <= |s|
    requires forall k :: 0 <= k < |a| ==> s[k] == a[k]
    requires s[p..p + 1] == "("
    requires RunLength(s, p + 1, IsIdChar) == n
    requires RunLength(a, p + 1 + n, IsSpace) == sp
    requires n > 0 ==> a[p + 1 + n + sp] != ')'
    ensures MatchAt(s, p, PaddedIdPattern).None?
  {
    SpaceRunInside(a, s, p + 1 + n);
    assert s[p + 1 + n + sp] == a[p + 1 + n + sp];
    PaddedIdNoCloser(s, p, n, sp);
  }

  lemma SpaceRunInside(a: string, s: string, e: nat)
    requires e <= |a| <= |s|
    requires forall k :: 0 <= k < |a| ==> s[k] == a[k]
    requires e + RunLength(a, e, IsSpace) < |a|
    ensures RunLength(s, e, IsSpace) == RunLength(a, e, IsSpace)
  {
    var c := e + RunLength(a, e, IsSpace);
    assert s[c] == a[c];
    RunLengthUnique(s, e, c, IsSpace);
  }

  lemma SpaceRunThrough(a: string, s: string, e: nat, m: nat)
    requires e <= |a| && |a| + m < |s|
    requires forall k :: 0 <= k < |a| ==> s[k] == a[k]
    requires forall k :: |a| <= k < |a| + m ==> s[k] == ' '
    requires s[|a| + m] == '('
    requires e + RunLength(a, e, IsSpace) == |a|
    ensures RunLength(s, e, IsSpace) == |a| + m - e
  {
    forall k | e <= k < |a| + m
      ensures IsSpace(s[k])
    {
      if k < |a| { assert s[k] == a[k]; }
    }
    RunLengthUnique(s, e, |a| + m, IsSpace);
  }

  /** No match starts in the name column or the spaces before "(": a name
      without a match of its own does not gain one from what follows it. */
  lemma LabelNameHasNoMatch(name: string, id: string, pat: Pattern, p: nat)
    requires pat == IdPattern || pat == PaddedIdPattern
    requires Search(name, pat) == None
    requires p < |PadRight(name, 30)| + 1
    ensures MatchAt(Label(name, id), p, pat).None?
  {
    if p <= |name| {
      NameHasNoMatch(name, id, pat, p);
    } else {
      GapHasNoMatch(name, id, pat, p);
    }
  }

  /** LabelNameHasNoMatch at a position of the name itself. */
  lemma NameHasNoMatch(name: string, id: string, pat: Pattern, p: nat)
    requires pat == IdPattern || pat == PaddedIdPattern
    requires Search(name, pat) == None
    requires p <= |name|
    ensures MatchAt(Label(name, id), p, pat).None?
  {
    var m := |PadRight(name, 30)| + 1 - |name|;
    LabelShape(name, id);
    SearchSpec(name, pat);
    AppendedNoMatch(name, m, PadRight(id, 15) + ")", pat, p);
  }

  /** LabelNameHasNoMatch at a position of the padding after the name. */
  lemma GapHasNoMatch(name: string, id: string, pat: Pattern, p: nat)
    requires pat == IdPattern || pat == PaddedIdPattern
    requires |name| < p < |PadRight(name, 30)| + 1
    ensures MatchAt(Label(name, id), p, pat).None?
  {
    var m := |PadRight(name, 30)| + 1 - |name|;
    LabelShape(name, id);
    var entry := Label(name, id);
    assert entry[p] == ' ';
    assert entry[p..p + 1] == [' '];
    MatchAtNoOpener(entry, p, pat);
  }

  /** "(", an id, `sp` spaces and ")" at position `q` make a match that
      captures the id; the pattern as written allows no spaces. */
  lemma CapturesAt(s: string, q: nat, id: string, sp: nat, pat: Pattern)
    requires pat.opener == "(" && pat.cls == IsIdChar && pat.closer == ')'
    requires !pat.padded ==> sp == 0
    requires IsInstanceId(id)
    requires q + 1 + |id| + sp < |s| && s[q..q + 1] == "("
    requires forall k :: 0 <= k < |id| ==> s[q + 1 + k] == id[k]
    requires forall k :: q + 1 + |id| <= k < q + 1 + |id| + sp ==> s[k] == ' '
    requires s[q + 1 + |id| + sp] == ')'
    ensures MatchAt(s, q, pat) == Some(id)
  {
    var e := q + 1 + |id|;
    if sp == 0 {
      assert s[e] == ')';
    } else {
      assert s[e] == ' ';
    }
    IdRunAt(s, q, id);
    if pat.padded {
      RunLengthUnique(s, e, e + sp, IsSpace);
    }
    MatchAtCapture(s, q, pat, e, e + sp);
  }

  /** An instance id written after position `q`, and not followed by an id
      character, is the whole run of id characters there. */
  lemma IdRunAt(s: string, q: nat, id: string)
    requires IsInstanceId(id)
    requires q + 1 + |id| < |s|
    requires forall k :: 0 <= k < |id| ==> s[q + 1 + k] == id[k]
    requires !IsIdChar(s[q + 1 + |id|])
    ensures RunLength(s, q + 1, IsIdChar) == |id|
    ensures s[q + 1..q + 1 + |id|] == id
  {
    var e := q + 1 + |id|;
    forall k | q + 1 <= k < e
      ensures IsIdChar(s[k])
    {
      assert s[k] == id[k - q - 1];
    }
    RunLengthUnique(s, q + 1, e, IsIdChar);
  }

  /** The match that starts at the label's "(" captures the whole id when the
      pattern allows padding, or when the id fills its 15 columns. */
  lemma LabelIdMatch(name: string, id: string, pat: Pattern)
    requires pat == IdPattern || pat == PaddedIdPattern
    requires IsInstanceId(id)
    requires pat == IdPattern ==> |id| >= 15
    ensures MatchAt(Label(name, id), |PadRight(name, 30)| + 1, pat) == Some(id)
  {
    var head := PadRight(name, 30) + " (";
    assert |head| - 1 == |PadRight(name, 30)| + 1 && head[|head| - 1] == '(';
    HeadIdMatch(head, id, pat);
    assert Label(name, id) == head + (PadRight(id, 15) + ")");
  }

  /** LabelIdMatch for any text ending in "(" before the padded id. */
  lemma HeadIdMatch(head: string, id: string, pat: Pattern)
    requires pat == IdPattern || pat == PaddedIdPattern
    requires IsInstanceId(id) && (!pat.padded ==> |id| >= 15)
    requires |head| >= 1 && head[|head| - 1] == '('
    ensures MatchAt(head + (PadRight(id, 15) + ")"), |head| - 1, pat) == Some(id)
  {
    var rest := PadRight(id, 15) + ")";
    var entry := head + rest;
    PaddedTail(id, head, rest);
    var paren := |head| - 1;
    assert entry[paren] == head[paren];
    assert entry[paren..paren + 1] == "(";
    assert pat.opener == "(" && pat.cls == IsIdChar && pat.closer == ')';
    CapturesAt(entry, paren, id, |PadRight(id, 15)| - |id|, pat);
  }

  /** Reading the id back from a label gives the id, for every valid id and
      every name in which the pattern finds nothing. */
  lemma LabelIdRoundTrip(name: string, id: string)
    requires IsInstanceId(id)
    requires Search(name, PaddedIdPattern) == None
    ensures InstanceIdOf(Label(name, id)) == Some(id)
  {
    var paren := |PadRight(name, 30)| + 1;
    LabelIdMatch(name, id, PaddedIdPattern);
    forall k | 0 <= k < paren
      ensures MatchAt(Label(name, id), k, PaddedIdPattern).None?
    {
      LabelNameHasNoMatch(name, id, PaddedIdPattern, k);
    }
    LabelLayout(name, id);
    SearchLeftmost(Label(name, id), paren, PaddedIdPattern);
  }

  /** The pattern as written reads the id back only when the id fills its 15
      columns, so that no padding stands before ")". */
  lemma LabelIdRoundTripAsWritten(name: string, id: string)
    requires IsInstanceId(id) && |id| >= 15
    requires Search(name, IdPattern) == None
    ensures InstanceIdAsWritten(Label(name, id)) == Some(id)
  {
    var paren := |PadRight(name, 30)| + 1;
    LabelIdMatch(name, id, IdPattern);
    forall k | 0 <= k < paren
      ensures MatchAt(Label(name, id), k, IdPattern).None?
    {
      LabelNameHasNoMatch(name, id, IdPattern, k);
    }
    LabelLayout(name, id);
    SearchLeftmost(Label(name, id), paren, IdPattern);
  }

  /** With the pattern as written, an id shorter than 15 characters is never
      found in its own label: the padding stands between it and ")". */
  lemma ShortIdNotFoundAsWritten(name: string, id: string)
    requires IsInstanceId(id) && |id| < 15
    requires Search(name, IdPattern) == None
    ensures InstanceIdAsWritten(Label(name, id)) == None
  {
    var entry := Label(name, id);
    var paren := |PadRight(name, 30)| + 1;
    LabelLayout(name, id);
    forall k | 0 <= k <= |entry|
      ensures MatchAt(entry, k, IdPattern).None?
    {
      if k < paren {
        LabelNameHasNoMatch(name, id, IdPattern, k);
      } else if k == paren {
        ShortIdAtParen(name, id);
      } else {
        PastParenNoMatch(name, id, k);
      }
    }
    SearchSpec(entry, IdPattern);
  }

  /** At the label's "(", the run of id characters stops at the padding. */
  lemma ShortIdAtParen(name: string, id: string)
    requires IsInstanceId(id) && |id| < 15
    ensures MatchAt(Label(name, id), |PadRight(name, 30)| + 1, IdPattern).None?
  {
    var entry := Label(name, id);
    var paren := |PadRight(name, 30)| + 1;
    LabelLayout(name, id);
    var e := paren + 1 + |id|;
    forall j | paren + 1 <= j < e
      ensures IsIdChar(entry[j])
    {
      assert entry[j] == id[j - paren - 1];
    }
    RunLengthUnique(entry, paren + 1, e, IsIdChar);
    assert entry[e] == ' ';
    IdNoCloser(entry, paren, |id|);
  }

  /** No "(" follows the label's own, so no match starts after it. */
  lemma PastParenNoMatch(name: string, id: string, k: nat)
    requires IsInstanceId(id)
    requires |PadRight(name, 30)| + 1 < k <= |Label(name, id)|
    ensures MatchAt(Label(name, id), k, IdPattern).None?
  {
    var head := PadRight(name, 30) + " (";
    var q := PadRight(id, 15);
    var rest := q + ")";
    var entry := Label(name, id);
    assert entry == head + rest;
    if k < |entry| {
      var j := k - |head|;
      assert entry[k] == rest[j];
      if j < |id| {
        assert q[j] == q[..|id|][j] == id[j];
      }
      assert entry[k..k + 1][0] == entry[k];
    }
    assert !OccursAt(entry, "(", k);
    MatchAtNoOpener(entry, k, IdPattern);
  }

  /** A name without "(" holds no match of either instance pattern. */
  lemma NoParenNoId(name: string, pat: Pattern)
    requires pat == IdPattern || pat == PaddedIdPattern
    requires forall k :: 0 <= k < |name| ==> name[k] != '('
    ensures Search(name, pat) == None
  {
    forall k | 0 <= k <= |name|
      ensures MatchAt(name, k, pat).None?
    {
      if k < |name| {
        assert name[k..k + 1] == [name[k]];
      }
    }
    SearchSpec(name, pat);
  }

  /** The concrete case: an instance named "web" with the 10-character id
      "i-1234abcd". */
  lemma ShortIdExample()
    ensures InstanceIdAsWritten(Label("web", "i-1234abcd")) == None
    ensures InstanceIdOf(Label("web", "i-1234abcd")) == Some("i-1234abcd")
  {
    var name := "web";
    var id := "i-1234abcd";
    assert forall k :: 0 <= k < |name| ==> name[k] != '(';
    NoParenNoId(name, IdPattern);
    NoParenNoId(name, PaddedIdPattern);
    assert IsInstanceId(id);
    ShortIdNotFoundAsWritten(name, id);
    LabelIdRoundTrip(name, id);
  }

  /** Where the pattern as written finds the id, the padded pattern finds
      the same one. */
  lemma PaddedAgreesOnFullIds(name: string, id: string)
    requires IsInstanceId(id) && |id| >= 15
    requires Search(name, IdPattern) == None && Search(name, PaddedIdPattern) == None
    ensures InstanceIdOf(Label(name, id)) == InstanceIdAsWritten(Label(name, id)) == Some(id)
  {
    LabelIdRoundTrip(name, id);
    LabelIdRoundTripAsWritten(name, id);
  }

  /** A name that holds a match of the pattern itself hides the id: reading
      a label gives the name's match, with either pattern. */
  lemma NameMatchWins(name: string, id: string, pat: Pattern)
    requires pat == IdPattern || pat == PaddedIdPattern
    requires Search(name, pat).Some?
    ensures Search(Label(name, id), pat) == Search(name, pat)
  {
    LabelShape(name, id);
    AppendedMatchKept(name, |PadRight(name, 30)| + 1 - |name|, PadRight(id, 15) + ")", pat);
  }

  /** The leftmost match of `a` stays the leftmost once spaces, "(" and
      anything else are appended. */
  lemma AppendedMatchKept(a: string, m: nat, rest: string, pat: Pattern)
    requires pat == IdPattern || pat == PaddedIdPattern
    requires m >= 1 && Search(a, pat).Some?
    ensures Search(a + Spaces(m) + "(" + rest, pat) == Search(a, pat)
  {
    var p := FirstMatch(a, 0, pat).value;
    var s := a + Spaces(m) + "(" + rest;
    forall k | 0 <= k < p
      ensures MatchAt(s, k, pat).None?
    {
      AppendedNoMatch(a, m, rest, pat, k);
    }
    assert forall k :: 0 <= k < |a| ==> s[k] == a[k];
    MatchAtExtended(a, s, p, pat);
    SearchLeftmost(s, p, pat);
  }

  /** An instance named "web (old)": both patterns read "old" from its
      label, not its id. */
  lemma NameMatchExample()
    ensures InstanceIdAsWritten(Label("web (old)", "i-0123456789abcdef0")) == Some("old")
    ensures InstanceIdOf(Label("web (old)", "i-0123456789abcdef0")) == Some("old")
  {
    var name := "web (old)";
    OldInName(name, IdPattern);
    OldInName(name, PaddedIdPattern);
    NameMatchWins(name, "i-0123456789abcdef0", IdPattern);
    NameMatchWins(name, "i-0123456789abcdef0", PaddedIdPattern);
  }

  lemma OldInName(name: string, pat: Pattern)
    requires name == "web (old)"
    requires pat.opener == "(" && pat.cls == IsIdChar && pat.closer == ')'
    ensures Search(name, pat) == Some("old")
  {
    forall k | 0 <= k < 4
      ensures MatchAt(name, k, pat).None?
    {
      assert name[k] != '(' && name[k..k + 1] == [name[k]];
      MatchAtNoOpener(name, k, pat);
    }
    CapturesAt(name, 4, "old", 0, pat);
    SearchLeftmost(name, 4, pat);
  }

  // ------------------------------------------------------------ preview

  /** The position of the first instance with the given id. */
  function FirstWithId(instances: seq<Instance>, id: string): (r: Option<nat>)
    ensures r.None? <==> forall k :: 0 <= k < |instances| ==> instances[k].id != id
    ensures r.Some? ==> r.value < |instances| && instances[r.value].id == id
    ensures r.Some? ==> forall k :: 0 <= k < r.value ==> instances[k].id != id
    decreases |instances|
  {
    if instances == [] then None
    else if instances[0].id == id then Some(0)
    else
      match FirstWithId(instances[1..], id)
      case None => None
      case Some(k) => Some(k + 1)
  }

  /** The six preview lines of an instance; None where a running instance
      has no PrivateIpAddress and the lookup raises KeyError. */
  function DetailLines(inst: Instance): Option<seq<string>>
  {
    var head := ["Id: " + inst.id, "Type: " + inst.instanceType, "State: " + inst.state,
                 "AZ: " + inst.zone, "Launch Time: " + inst.launchTime];
    if inst.state == "running" then
      match inst.privateIp
      case None => None
      case Some(ip) => Some(head + ["IP: " + ip])
    else Some(head + ["IP: NONE"])
  }

  datatype PreviewResult =
    | Details(text: string)
      /** No instance has the id: `preview` returns None. */
    | NoInstance
      /** The pattern finds no id: `match.group(1)` raises AttributeError. */
    | NoIdInSelection
      /** A running instance without PrivateIpAddress: KeyError. */
    | MissingPrivateIp

  /** What `preview(selection)` produces for the given reservations, reading
      the id with `idPattern`: the script's `instance_regex` is `IdPattern`,
      and `PaddedIdPattern` is the corrected pattern. */
  function PreviewOf(selection: string, reservations: Reservations, idPattern: Pattern): PreviewResult
  {
    match Search(selection, idPattern)
    case None => NoIdInSelection
    case Some(id) =>
      var instances := Flatten(reservations);
      match FirstWithId(instances, id)
      case None => NoInstance
      case Some(k) =>
        match DetailLines(instances[k])
        case None => MissingPrivateIp
        case Some(lines) => Details(Join(lines, "\n"))
  }

  predicate NoneWithId(instances: seq<Instance>, id: string)
  {
    forall k :: 0 <= k < |instances| ==> instances[k].id != id
  }

  /** The preview loop: the first instance with the selected id, in
      reservation-then-instance order, gives the text. */
  method Preview(selection: string, reservations: Reservations, idPattern: Pattern)
    returns (r: PreviewResult)
    ensures r == PreviewOf(selection, reservations, idPattern)
  {
    var found := Search(selection, idPattern);
    if found.None? {
      return NoIdInSelection;
    }
    var id := found.value;
    for i := 0 to |reservations|
      invariant NoneWithId(Flatten(reservations[..i]), id)
    {
      var instances := reservations[i];
      for j := 0 to |instances|
        invariant NoneWithId(Flatten(reservations[..i]) + instances[..j], id)
      {
        var inst := instances[j];
        if inst.id == id {
          var lines: seq<string> := [];
          lines := lines + ["Id: " + inst.id];
          lines := lines + ["Type: " + inst.instanceType];
          var state := inst.state;
          lines := lines + ["State: " + state];
          lines := lines + ["AZ: " + inst.zone];
          lines := lines + ["Launch Time: " + inst.launchTime];
          assert lines == ["Id: " + inst.id, "Type: " + inst.instanceType, "State: " + inst.state,
                           "AZ: " + inst.zone, "Launch Time: " + inst.launchTime];
          if state == "running" {
            if inst.privateIp.None? {
              assert DetailLines(inst) == None;
              r := MissingPrivateIp;
            } else {
              lines := lines + ["IP: " + inst.privateIp.value];
              assert DetailLines(inst) == Some(lines);
              r := Details(Join(lines, "\n"));
            }
          } else {
            lines := lines + ["IP: NONE"];
            assert DetailLines(inst) == Some(lines);
            r := Details(Join(lines, "\n"));
          }
          PreviewFound(selection, reservations, i, j, id, idPattern);
          return;
        }
        NoneWithIdStep(Flatten(reservations[..i]), instances, j, id);
      }
      assert instances[..|instances|] == instances;
      FlattenSnoc(reservations, i);
    }
    assert reservations[..|reservations|] == reservations;
    r := NoInstance;
  }

  /** The instances of reservation `i` sit between those before it and those
      after it. */
  lemma FlattenAround(reservations: Reservations, i: nat)
    requires i < |reservations|
    ensures Flatten(reservations) ==
      Flatten(reservations[..i]) + reservations[i] + Flatten(reservations[i + 1..])
  {
    assert reservations == reservations[..i + 1] + reservations[i + 1..];
    FlattenAppend(reservations[..i + 1], reservations[i + 1..]);
    FlattenSnoc(reservations, i);
  }

  /** An instance with the id, with none before it, is the first with the id. */
  lemma FirstWithIdAt(instances: seq<Instance>, k: nat, id: string)
    requires k < |instances| && instances[k].id == id
    requires NoneWithId(instances[..k], id)
    ensures FirstWithId(instances, id) == Some(k)
  {
    forall m | 0 <= m < k
      ensures instances[m].id != id
    {
      assert instances[m] == instances[..k][m];
    }
  }

  /** The instance met first by the preview loop is the first with its id
      among all instances. */
  lemma PreviewFoundAt(reservations: Reservations, i: nat, j: nat, id: string, k: nat)
    requires i < |reservations| && j < |reservations[i]|
    requires reservations[i][j].id == id
    requires NoneWithId(Flatten(reservations[..i]) + reservations[i][..j], id)
    requires k == |Flatten(reservations[..i])| + j
    ensures k < |Flatten(reservations)| && Flatten(reservations)[k] == reservations[i][j]
    ensures FirstWithId(Flatten(reservations), id) == Some(k)
  {
    var before := Flatten(reservations[..i]);
    var row := reservations[i];
    FlattenAround(reservations, i);
    var all := Flatten(reservations);
    assert all[k] == row[j];
    assert all[..k] == before + row[..j];
    FirstWithIdAt(all, k, id);
  }

  /** The search goes on past an instance with another id. */
  lemma NoneWithIdStep(before: seq<Instance>, instances: seq<Instance>, j: nat, id: string)
    requires j < |instances| && instances[j].id != id
    requires NoneWithId(before + instances[..j], id)
    ensures NoneWithId(before + instances[..j + 1], id)
  {
    assert before + instances[..j + 1] == (before + instances[..j]) + [instances[j]];
  }

  /** The preview of a selection is that of the instance the preview loop
      meets first. */
  lemma PreviewFound(selection: string, reservations: Reservations, i: nat, j: nat, id: string,
                     idPattern: Pattern)
    requires Search(selection, idPattern) == Some(id)
    requires i < |reservations| && j < |reservations[i]|
    requires reservations[i][j].id == id
    requires NoneWithId(Flatten(reservations[..i]) + reservations[i][..j], id)
    ensures PreviewOf(selection, reservations, idPattern) ==
      match DetailLines(reservations[i][j])
      case None => MissingPrivateIp
      case Some(lines) => Details(Join(lines, "\n"))
  {
    var all := Flatten(reservations);
    var k := |Flatten(reservations[..i])| + j;
    PreviewFoundAt(reservations, i, j, id, k);
    assert DetailLines(all[k]) == DetailLines(reservations[i][j]);
  }

  /** The preview text splits back into its six detail lines, when no field
      holds a line boundary. */
  lemma PreviewTextLines(inst: Instance)
    requires NoLineBreak(inst.id) && NoLineBreak(inst.instanceType) && NoLineBreak(inst.state)
    requires NoLineBreak(inst.zone) && NoLineBreak(inst.launchTime)
    requires inst.privateIp.Some? ==> NoLineBreak(inst.privateIp.value)
    requires DetailLines(inst).Some?
    ensures SplitLines(Join(DetailLines(inst).value, "\n")) == DetailLines(inst).value
    ensures |DetailLines(inst).value| == 6
  {
    var ip := if inst.state == "running" then inst.privateIp.value else "NONE";
    PrefixesNoBreak();
    PrefixedNoBreak("Id: ", inst.id);
    PrefixedNoBreak("Type: ", inst.instanceType);
    PrefixedNoBreak("State: ", inst.state);
    PrefixedNoBreak("AZ: ", inst.zone);
    PrefixedNoBreak("Launch Time: ", inst.launchTime);
    PrefixedNoBreak("IP: ", ip);
    var lines := ["Id: " + inst.id, "Type: " + inst.instanceType, "State: " + inst.state,
                  "AZ: " + inst.zone, "Launch Time: " + inst.launchTime, "IP: " + ip];
    DetailLinesWithIp(inst, ip);
    SixLinesNoBreak(lines);
    SplitLinesJoin(lines);
  }

  /** The detail lines of an instance that has them, with the IP line spelt
      out. */
  lemma DetailLinesWithIp(inst: Instance, ip: string)
    requires DetailLines(inst).Some?
    requires ip == if inst.state == "running" then inst.privateIp.value else "NONE"
    ensures DetailLines(inst) == Some(["Id: " + inst.id, "Type: " + inst.instanceType,
      "State: " + inst.state, "AZ: " + inst.zone, "Launch Time: " + inst.launchTime, "IP: " + ip])
  {
    var head := ["Id: " + inst.id, "Type: " + inst.instanceType, "State: " + inst.state,
                 "AZ: " + inst.zone, "Launch Time: " + inst.launchTime];
    if inst.state != "running" {
      assert "IP: " + "NONE" == "IP: NONE";
    }
    assert DetailLines(inst) == Some(head + ["IP: " + ip]);
    assert head + ["IP: " + ip] == [head[0], head[1], head[2], head[3], head[4], "IP: " + ip];
  }

  lemma PrefixesNoBreak()
    ensures NoLineBreak("Id: ") && NoLineBreak("Type: ") && NoLineBreak("State: ")
    ensures NoLineBreak("AZ: ") && NoLineBreak("Launch Time: ") && NoLineBreak("IP: ")
    ensures NoLineBreak("NONE")
  {
  }

  lemma SixLinesNoBreak(lines: seq<string>)
    requires |lines| == 6
    requires NoLineBreak(lines[0]) && NoLineBreak(lines[1]) && NoLineBreak(lines[2])
    requires NoLineBreak(lines[3]) && NoLineBreak(lines[4]) && NoLineBreak(lines[5])
    ensures forall l :: l in lines ==> NoLineBreak(l)
  {
    forall l | l in lines
      ensures NoLineBreak(l)
    {
      var k :| 0 <= k < 6 && lines[k] == l;
    }
  }

  lemma PrefixedNoBreak(prefix: string, field: string)
    requires NoLineBreak(prefix) && NoLineBreak(field)
    ensures NoLineBreak(prefix + field)
  {
    forall i | 0 <= i < |prefix + field|
      ensures NotLineBreak((prefix + field)[i])
    {
      if i >= |prefix| {
        assert (prefix + field)[i] == field[i - |prefix|];
      }
    }
  }

  /** The preview of an instance's own label shows that instance's details,
      when it is the first instance with its id, its id is valid, its name
      holds no match of the pattern and, for the pattern as written, the id
      fills its 15 columns. */
  lemma PreviewOfOwnLabel(reservations: Reservations, k: nat, idPattern: Pattern)
    requires idPattern == IdPattern || idPattern == PaddedIdPattern
    requires k < |Flatten(reservations)|
    requires var inst := Flatten(reservations)[k];
      && IsInstanceId(inst.id)
      && (idPattern == IdPattern ==> |inst.id| >= 15)
      && Search(DisplayName(inst), idPattern) == None
      && forall m :: 0 <= m < k ==> Flatten(reservations)[m].id != inst.id
    ensures var inst := Flatten(reservations)[k];
      PreviewOf(InstanceLabel(inst), reservations, idPattern) ==
        match DetailLines(inst)
        case None => MissingPrivateIp
        case Some(lines) => Details(Join(lines, "\n"))
  {
    var all := Flatten(reservations);
    var inst := all[k];
    OwnLabelId(DisplayName(inst), inst.id, idPattern);
    assert NoneWithId(all[..k], inst.id) by {
      forall m | 0 <= m < k
        ensures all[..k][m].id != inst.id
      {
        assert all[..k][m] == all[m];
      }
    }
    FirstWithIdAt(all, k, inst.id);
  }

  /** LabelIdRoundTrip or LabelIdRoundTripAsWritten, by pattern. */
  lemma OwnLabelId(name: string, id: string, idPattern: Pattern)
    requires idPattern == IdPattern || idPattern == PaddedIdPattern
    requires IsInstanceId(id) && (idPattern == IdPattern ==> |id| >= 15)
    requires Search(name, idPattern) == None
    ensures Search(Label(name, id), idPattern) == Some(id)
  {
    if idPattern == IdPattern {
      LabelIdRoundTripAsWritten(name, id);
    } else {
      LabelIdRoundTrip(name, id);
    }
  }

  /** As written, the preview of a label whose id is shorter than 15
      characters fails: `match.group(1)` on no match raises AttributeError. */
  lemma ShortIdPreviewAsWritten(name: string, id: string, reservations: Reservations)
    requires IsInstanceId(id) && |id| < 15
    requires Search(name, IdPattern) == None
    ensures PreviewOf(Label(name, id), reservations, IdPattern) == NoIdInSelection
  {
    ShortIdNotFoundAsWritten(name, id);
  }

  // ------------------------------------------------- selected instance

  datatype TargetResult =
    | Target(id: string)
      /** The menu was dismissed: "No Instance selected", exit. */
    | NoInstanceSelected
      /** `items[...]` out of range, or `items[0]` on an empty menu: IndexError. */
    | TargetIndexError
      /** The chosen label holds no id: `match.group(1)` raises AttributeError. */
    | NoIdInLabel

  /** The instance the run connects to (src/aws_connect.py:203-221);
      `menuChoice` is what the instance menu returned (0 when not
      interactive) and `idPattern` the pattern the id is read with. */
  function SelectTarget(items: seq<string>, menuChoice: Option<nat>, idPattern: Pattern): TargetResult
  {
    match menuChoice
    case None => if items == [] then TargetIndexError else NoInstanceSelected
    case Some(i) =>
      if i < |items| then
        match Search(items[i], idPattern)
        case None => NoIdInLabel
        case Some(id) => Target(id)
      else TargetIndexError
  }

  /** Not interactive, the run connects to the first instance listed, or
      fails with IndexError when there is none; with the pattern as written,
      only when that instance's id fills its 15 columns. */
  lemma NonInteractiveTarget(reservations: Reservations, idPattern: Pattern)
    requires idPattern == IdPattern || idPattern == PaddedIdPattern
    requires Flatten(reservations) != [] ==>
      && IsInstanceId(Flatten(reservations)[0].id)
      && (idPattern == IdPattern ==> |Flatten(reservations)[0].id| >= 15)
      && Search(DisplayName(Flatten(reservations)[0]), idPattern) == None
    ensures var items := LabelsOf(Flatten(reservations));
      SelectTarget(items, Some(0), idPattern) ==
        if Flatten(reservations) == [] then TargetIndexError else Target(Flatten(reservations)[0].id)
  {
    var all := Flatten(reservations);
    if all != [] {
      FirstLabelTarget(all, idPattern);
    }
  }

  lemma FirstLabelTarget(all: seq<Instance>, idPattern: Pattern)
    requires idPattern == IdPattern || idPattern == PaddedIdPattern
    requires all != [] && IsInstanceId(all[0].id)
    requires idPattern == IdPattern ==> |all[0].id| >= 15
    requires Search(DisplayName(all[0]), idPattern) == None
    ensures SelectTarget(LabelsOf(all), Some(0), idPattern) == Target(all[0].id)
  {
    OwnLabelId(DisplayName(all[0]), all[0].id, idPattern);
    assert LabelsOf(all)[0] == Label(DisplayName(all[0]), all[0].id);
  }

  /** As written, when the first instance's id is shorter than 15 characters
      the non-interactive run ends in AttributeError at `match.group(1)`. */
  lemma NonInteractiveShortIdAsWritten(reservations: Reservations)
    requires Flatten(reservations) != []
    requires IsInstanceId(Flatten(reservations)[0].id) && |Flatten(reservations)[0].id| < 15
    requires Search(DisplayName(Flatten(reservations)[0]), IdPattern) == None
    ensures SelectTarget(LabelsOf(Flatten(reservations)), Some(0), IdPattern) == NoIdInLabel
  {
    var all := Flatten(reservations);
    ShortIdNotFoundAsWritten(DisplayName(all[0]), all[0].id);
    assert LabelsOf(all)[0] == Label(DisplayName(all[0]), all[0].id);
  }

  // ----------------------------------------------------------- commands

  /** `if args.region:` — an empty region counts as none. */
  predicate RegionGiven(region: Option<string>)
  {
    region.Some? && region.value != ""
  }

  function RegionArgs(region: Option<string>): seq<string>
  {
    if RegionGiven(region) then ["--region", region.value] else []
  }

  /** The argv of the describe-instances call (src/aws_connect.py:163-172);
      `vault` is whether `aws-vault` is executable. */
  function DescribeArgv(profile: string, region: Option<string>, vault: bool): seq<string>
  {
    if RegionGiven(region) then
      if vault then ["aws-vault", "exec", profile, "--", "aws", "ec2", "describe-instances", "--region", region.value]
      else ["aws", "ec2", "describe-instances", "--profile", profile, "--region", region.value]
    else
      if vault then ["aws-vault", "exec", profile, "--", "aws", "ec2", "describe-instances"]
      else ["aws", "ec2", "describe-instances", "--profile", profile]
  }

  /** Both ways run the same `aws ec2 describe-instances`: through aws-vault
      the profile goes to `aws-vault exec PROFILE --`, without it to
      `--profile PROFILE`; `--region REGION` closes the argv exactly when a
      region is given. */
  lemma DescribeArgvForms(profile: string, region: Option<string>)
    ensures DescribeArgv(profile, region, true) ==
      ["aws-vault", "exec", profile, "--"] + ["aws", "ec2", "describe-instances"] + RegionArgs(region)
    ensures DescribeArgv(profile, region, false) ==
      ["aws", "ec2", "describe-instances"] + ["--profile", profile] + RegionArgs(region)
  {
  }

  /** The start-session command line handed to the shell
      (src/aws_connect.py:223-232). */
  function SessionCommand(profile: string, id: string, region: Option<string>, vault: bool): string
  {
    if RegionGiven(region) then
      if vault then "aws-vault exec " + profile + " -- aws ssm start-session --target " + id + " --region " + region.value
      else "aws ssm start-session --target " + id + " --profile " + profile + " --region " + region.value
    else
      if vault then "aws-vault exec " + profile + " -- aws ssm start-session --target " + id
      else "aws ssm start-session --target " + id + " --profile " + profile
  }

  /** The words the start-session command is meant to have: the same shape
      as the describe-instances argv. */
  function SessionArgv(profile: string, id: string, region: Option<string>, vault: bool): seq<string>
  {
    var start := ["aws", "ssm", "start-session", "--target", id];
    if vault then ["aws-vault", "exec", profile, "--"] + start + RegionArgs(region)
    else start + ["--profile", profile] + RegionArgs(region)
  }

  /** Joining the intended words with single spaces gives the command line. */
  lemma SessionCommandJoin(profile: string, id: string, region: Option<string>, vault: bool)
    ensures SessionCommand(profile, id, region, vault) == Join(SessionArgv(profile, id, region, vault), " ")
  {
    if vault && RegionGiven(region) {
      VaultRegionJoin(profile, id, region.value);
    } else if vault {
      VaultNoRegionJoin(profile, id, region);
    } else if RegionGiven(region) {
      ProfileRegionJoin(profile, id, region.value);
    } else {
      ProfileNoRegionJoin(profile, id, region);
    }
  }

  lemma VaultRegionJoin(profile: string, id: string, r: string)
    requires r != ""
    ensures SessionCommand(profile, id, Some(r), true) == Join(SessionArgv(profile, id, Some(r), true), " ")
  {
    var tail := [id, "--region", r];
    assert SessionArgv(profile, id, Some(r), true) ==
      ["aws-vault", "exec"] + ([profile] + (["--", "aws", "ssm", "start-session", "--target"] + tail));
    VaultCommandJoin(profile, tail);
    JoinCons(id, ["--region", r], " ");
    JoinCons("--region", [r], " ");
    assert Join(tail, " ") == id + " " + ("--region" + " " + r);
    FlagWords();
    Regroup(id, "--region", r, "aws-vault exec " + profile + " -- aws ssm start-session --target ");
  }

  lemma VaultNoRegionJoin(profile: string, id: string, region: Option<string>)
    requires !RegionGiven(region)
    ensures SessionCommand(profile, id, region, true) == Join(SessionArgv(profile, id, region, true), " ")
  {
    assert SessionArgv(profile, id, region, true) ==
      ["aws-vault", "exec"] + ([profile] + (["--", "aws", "ssm", "start-session", "--target"] + [id]));
    VaultCommandJoin(profile, [id]);
  }

  lemma ProfileRegionJoin(profile: string, id: string, r: string)
    requires r != ""
    ensures SessionCommand(profile, id, Some(r), false) == Join(SessionArgv(profile, id, Some(r), false), " ")
  {
    var tail := ["--profile", profile, "--region", r];
    assert SessionArgv(profile, id, Some(r), false) ==
      ["aws", "ssm", "start-session", "--target"] + ([id] + tail);
    ProfileCommandJoin(id, tail);
    JoinCons("--profile", [profile, "--region", r], " ");
    JoinCons(profile, ["--region", r], " ");
    JoinCons("--region", [r], " ");
    assert Join(tail, " ") == "--profile" + " " + (profile + " " + ("--region" + " " + r));
    FlagWords();
    RegroupFlags("aws ssm start-session --target ", id, "--profile", profile, "--region", r);
  }

  /** Moving the separators around two flags onto the flags. */
  lemma RegroupFlags(prefix: string, x: string, f1: string, v1: string, f2: string, v2: string)
    ensures prefix + x + " " + (f1 + " " + (v1 + " " + (f2 + " " + v2))) ==
      prefix + x + (" " + f1 + " ") + v1 + (" " + f2 + " ") + v2
  {
  }

  lemma ProfileNoRegionJoin(profile: string, id: string, region: Option<string>)
    requires !RegionGiven(region)
    ensures SessionCommand(profile, id, region, false) == Join(SessionArgv(profile, id, region, false), " ")
  {
    var tail := ["--profile", profile];
    assert SessionArgv(profile, id, region, false) ==
      ["aws", "ssm", "start-session", "--target"] + ([id] + tail);
    ProfileCommandJoin(id, tail);
    JoinCons("--profile", [profile], " ");
    FlagWords();
    Regroup(id, "--profile", profile, "aws ssm start-session --target ");
  }

  /** The flags with the spaces around them. */
  lemma FlagWords()
    ensures " " + "--region" + " " == " --region "
    ensures " " + "--profile" + " " == " --profile "
  {
  }

  /** Moving the separators around a flag onto the flag, after a prefix. */
  lemma Regroup(x: string, flag: string, v: string, prefix: string)
    ensures prefix + (x + " " + (flag + " " + v)) == prefix + x + (" " + flag + " ") + v
  {
  }

  /** Joining a list built around one word: each part joined, then spaces
      between the parts. */
  lemma JoinAround(head: seq<string>, w: string, mid: seq<string>, tail: seq<string>)
    requires head != [] && mid != [] && tail != []
    ensures Join(head + ([w] + (mid + tail)), " ") ==
      Join(head, " ") + " " + (w + " " + (Join(mid, " ") + " " + Join(tail, " ")))
  {
    JoinAppend(mid, tail, " ");
    JoinCons(w, mid + tail, " ");
    JoinAppend(head, [w] + (mid + tail), " ");
  }

  lemma VaultCommandJoin(profile: string, tail: seq<string>)
    requires tail != []
    ensures Join(["aws-vault", "exec"] + ([profile] + (["--", "aws", "ssm", "start-session", "--target"] + tail)), " ")
      == "aws-vault exec " + profile + " -- aws ssm start-session --target " + Join(tail, " ")
  {
    var t := Join(tail, " ");
    VaultWords();
    VaultMidWords();
    JoinAround(["aws-vault", "exec"], profile, ["--", "aws", "ssm", "start-session", "--target"], tail);
    RegroupParts("aws-vault exec", profile, "-- aws ssm start-session --target", t);
  }

  /** Moving the separators of three joined parts onto the literal ones. */
  lemma RegroupParts(a: string, w: string, m: string, t: string)
    ensures a + " " + (w + " " + (m + " " + t)) == (a + " ") + w + (" " + m + " ") + t
  {
  }

  /** The literal words of the aws-vault command, joined. */
  lemma VaultWords()
    ensures Join(["aws-vault", "exec"], " ") == "aws-vault exec"
    ensures "aws-vault exec" + " " == "aws-vault exec "
    ensures " " + "-- aws ssm start-session --target" + " " == " -- aws ssm start-session --target "
  {
    VaultMidSpaced();
  }

  lemma VaultMidWords()
    ensures Join(["--", "aws", "ssm", "start-session", "--target"], " ") == "-- aws ssm start-session --target"
  {
    var start := ["aws", "ssm", "start-session", "--target"];
    ProfileWords();
    JoinCons("--", start, " ");
    assert ["--"] + start == ["--", "aws", "ssm", "start-session", "--target"];
    VaultMidLiteral();
  }

  lemma VaultMidLiteral()
    ensures "--" + " " + "aws ssm start-session --target" == "-- aws ssm start-session --target"
  {
    assert "--" + " " == "-- ";
  }

  lemma VaultMidSpaced()
    ensures " " + "-- aws ssm start-session --target" + " " == " -- aws ssm start-session --target "
  {
    VaultMidSplit();
    VaultMidEnds();
    VaultMidJoined();
  }

  lemma VaultMidSplit()
    ensures "-- aws ssm start-session --target" == "-- aws" + " ssm start-session --target"
  {
  }

  lemma VaultMidEnds()
    ensures " " + "-- aws" == " -- aws"
    ensures " ssm start-session --target" + " " == " ssm start-session --target "
  {
  }

  lemma VaultMidJoined()
    ensures " -- aws" + " ssm start-session --target " == " -- aws ssm start-session --target "
  {
  }

  lemma ProfileCommandJoin(id: string, tail: seq<string>)
    requires tail != []
    ensures Join(["aws", "ssm", "start-session", "--target"] + ([id] + tail), " ")
      == "aws ssm start-session --target " + id + " " + Join(tail, " ")
  {
    var start := ["aws", "ssm", "start-session", "--target"];
    ProfileWords();
    JoinCons(id, tail, " ");
    JoinAppend(start, [id] + tail, " ");
  }

  /** The literal words of the plain aws command, joined. */
  lemma ProfileWords()
    ensures Join(["aws", "ssm", "start-session", "--target"], " ") == "aws ssm start-session --target"
    ensures "aws ssm start-session --target" + " " == "aws ssm start-session --target "
  {
  }

  /** When profile, id and region are shell words, the command line holds
      nothing but shell-literal characters and spaces, and the shell splits it
      into exactly the intended argv. */
  lemma SessionCommandWords(profile: string, id: string, region: Option<string>, vault: bool)
    requires IsShellWord(profile) && IsShellWord(id)
    requires RegionGiven(region) ==> IsShellWord(region.value)
    ensures IsPlainCommandLine(SessionCommand(profile, id, region, vault))
    ensures Words(SessionCommand(profile, id, region, vault)) == SessionArgv(profile, id, region, vault)
  {
    var ws := SessionArgv(profile, id, region, vault);
    SessionCommandJoin(profile, id, region, vault);
    ArgvShellWords(profile, id, region, vault);
    JoinShellWords(ws);
    forall w | w in ws
      ensures w != [] && NoSpace(w)
    {
      ShellWordIsWord(w);
    }
    WordsJoin(ws);
  }

  lemma ArgvShellWords(profile: string, id: string, region: Option<string>, vault: bool)
    requires IsShellWord(profile) && IsShellWord(id)
    requires RegionGiven(region) ==> IsShellWord(region.value)
    ensures forall w :: w in SessionArgv(profile, id, region, vault) ==> IsShellWord(w)
  {
    var fixed := ["aws-vault", "exec", "--", "aws", "ssm", "start-session", "--target", "--profile", "--region"];
    LiteralWords();
    var ws := SessionArgv(profile, id, region, vault);
    forall w | w in ws
      ensures IsShellWord(w)
    {
      assert w in fixed || w == profile || w == id || (RegionGiven(region) && w == region.value);
    }
  }

  /** The fixed words of both commands are shell words. */
  lemma LiteralWords()
    ensures forall w ::
      (w in ["aws-vault", "exec", "--", "aws", "ssm", "start-session", "--target", "--profile", "--region"]
      ==> IsShellWord(w))
  {
  }

  /** Profiles from the config and ids from the labels are shell words: the
      two patterns admit nothing the shell would interpret. */
  lemma ConfigNamesAreWords(profile: string, id: string)
    requires IsProfileName(profile) && IsInstanceId(id)
    ensures IsShellWord(profile) && IsShellWord(id)
    ensures profile != "" && NoSpace(profile) && id != "" && NoSpace(id)
  {
    assert forall i :: 0 <= i < |profile| ==> IsProfileChar(profile[i]);
    assert forall i :: 0 <= i < |id| ==> IsIdChar(id[i]);
  }
}
