/**
 Hostnames of services, resources and consoles. A hostname label joins slugs with two dashes, so it can be taken
 apart again although a truncated slug may end in a dash.
 */
module HostLabels {
  import opened Wrappers
  import opened Ids

  // ---- Labels ----

  function Join(slugs: seq<string>): string {
    if slugs == [] then ""
    else if |slugs| == 1 then slugs[0]
    else slugs[0] + "--" + Join(slugs[1..])
  }

  /** Two dashes that no third dash follows separate two slugs. */
  predicate Separator(s: string, i: nat) {
    i + 2 < |s| && s[i] == '-' && s[i + 1] == '-' && s[i + 2] != '-'
  }

  function FirstSeparator(s: string, start: nat): (i: Option<nat>)
    ensures i.Some? ==> Separator(s, i.value) && forall j: nat :: start <= j < i.value ==> !Separator(s, j)
    ensures i.None? ==> forall j: nat :: start <= j ==> !Separator(s, j)
    decreases |s| - start
  {
    if start >= |s| then None
    else if Separator(s, start) then Some(start)
    else FirstSeparator(s, start + 1)
  }

  function Split(joined: string): seq<string>
    decreases |joined|
  {
    match FirstSeparator(joined, 0)
    case None => [joined]
    case Some(i) => [joined[..i]] + Split(joined[i + 2..])
  }

  lemma {:induction false} JoinStarts(slugs: seq<string>)
    requires slugs != [] && AllSlugs(slugs)
    ensures Join(slugs) != "" && Join(slugs)[0] == slugs[0][0]
  {
  }

  lemma NoSeparatorInside(slug: string)
    requires IsSlug(slug)
    ensures FirstSeparator(slug, 0) == None
  {
    hide SlugChars;
    forall j: nat | j + 2 < |slug|
      ensures !Separator(slug, j)
    {
      assert !(slug[j] == '-' && slug[j + 1] == '-');
    }
  }

  lemma SeparatorBehind(slug: string, rest: string)
    requires IsSlug(slug) && rest != "" && rest[0] != '-'
    ensures FirstSeparator(slug + "--" + rest, 0) == Some(|slug|)
  {
    hide SlugChars;
    var joined := slug + "--" + rest;
    assert joined[|slug|] == '-' && joined[|slug| + 1] == '-' && joined[|slug| + 2] == rest[0] != '-';
    forall j: nat | j < |slug|
      ensures !Separator(joined, j)
    {
      assert joined[j] == slug[j];
      if j + 1 < |slug| {
        assert joined[j + 1] == slug[j + 1] && !(slug[j] == '-' && slug[j + 1] == '-');
      } else {
        assert joined[j + 2] == '-';
      }
    }
    assert Separator(joined, |slug|);
  }

  /** Splitting a label gives back the slugs it was joined from, however many they are. */
  lemma {:induction false} SplitInvertsJoin(slugs: seq<string>)
    requires slugs != [] && AllSlugs(slugs)
    ensures Split(Join(slugs)) == slugs
    decreases |slugs|
  {
    var first, joined := slugs[0], Join(slugs);
    if |slugs| == 1 {
      NoSeparatorInside(first);
    } else {
      var rest := Join(slugs[1..]);
      JoinStarts(slugs[1..]);
      SeparatorBehind(first, rest);
      SplitInvertsJoin(slugs[1..]);
      hide IsSlug, Separator, FirstSeparator;
      assert joined[..|first|] == first && joined[|first| + 2..] == rest;
    }
  }

  // ---- Hostnames ----

  function NonEmpty(parts: seq<string>): seq<string> {
    if parts == [] then [] else (if parts[0] == "" then [] else [parts[0]]) + NonEmpty(parts[1..])
  }

  function Slugs(parts: seq<string>): seq<string> {
    seq(|NonEmpty(parts)|, i requires 0 <= i < |NonEmpty(parts)| => Slugify(NonEmpty(parts)[i], "item"))
  }

  function Hostname(slugs: seq<string>, zone: string, baseDomain: string): string {
    Join(slugs) + ("." + (zone + ("." + baseDomain)))
  }

  /** An empty custom domain or preview counts as absent. */
  function ServiceHostname(customDomain: string, preview: string, service: string, project: string, organization: string,
                           baseDomain: string): string
  {
    if customDomain != "" then customDomain
    else Hostname(Slugs([preview, service, project, organization]), if preview != "" then "preview" else "apps", baseDomain)
  }

  function ServiceConsoleHostname(service: string, project: string, organization: string, baseDomain: string): string {
    Hostname(Slugs([service, project, organization]), "console", baseDomain)
  }

  function ResourceConsoleHostname(resource: string, project: string, organization: string, baseDomain: string): string {
    Hostname(Slugs([resource, project, organization]), "resources", baseDomain)
  }

  function ProjectConsoleHostname(project: string, organization: string, baseDomain: string): string {
    Hostname(Slugs([project, organization]), "console", baseDomain)
  }

  function WorkspaceConsoleHostname(organization: string, baseDomain: string): string {
    Hostname([Slugify(organization, "item")], "console", baseDomain)
  }

  function FirstDot(s: string): (i: nat)
    ensures i <= |s| && (i < |s| ==> s[i] == '.') && forall j :: 0 <= j < i ==> s[j] != '.'
  {
    if s == "" || s[0] == '.' then 0 else 1 + FirstDot(s[1..])
  }

  function Rest(s: string): string {
    if FirstDot(s) < |s| then s[FirstDot(s) + 1..] else ""
  }

  /** Slugs, zone and base domain of a generated hostname. */
  function Parse(host: string): (seq<string>, string, string) {
    var joined, tail := host[..FirstDot(host)], Rest(host);
    (if joined == "" then [] else Split(joined), tail[..FirstDot(tail)], Rest(tail))
  }

  predicate NoDot(s: string) {
    forall i :: 0 <= i < |s| ==> s[i] != '.'
  }

  lemma CutAtDot(a: string, b: string)
    requires NoDot(a)
    ensures (a + ("." + b))[..FirstDot(a + ("." + b))] == a && Rest(a + ("." + b)) == b
  {
    var s := a + ("." + b);
    assert s[|a|] == '.' && forall j :: 0 <= j < |a| ==> s[j] == a[j];
    assert FirstDot(s) == |a|;
  }

  lemma {:induction false} JoinHasNoDot(slugs: seq<string>)
    requires AllSlugs(slugs)
    ensures NoDot(Join(slugs))
  {
    if |slugs| > 1 {
      JoinHasNoDot(slugs[1..]);
    }
  }

  /** A generated hostname can be parsed back into its slugs, its zone and its base domain. */
  lemma ParseInvertsHostname(slugs: seq<string>, zone: string, baseDomain: string)
    requires AllSlugs(slugs) && NoDot(zone)
    ensures Parse(Hostname(slugs, zone, baseDomain)) == (slugs, zone, baseDomain)
  {
    JoinHasNoDot(slugs);
    CutAtDot(Join(slugs), zone + ("." + baseDomain));
    CutAtDot(zone, baseDomain);
    if slugs != [] {
      JoinStarts(slugs);
      SplitInvertsJoin(slugs);
    }
  }

  lemma HostnamesAgreeExactly(slugs: seq<string>, zone: string, b: string, slugs': seq<string>, zone': string, b': string)
    requires AllSlugs(slugs) && AllSlugs(slugs') && NoDot(zone) && NoDot(zone')
    ensures Hostname(slugs, zone, b) == Hostname(slugs', zone', b') <==> slugs == slugs' && zone == zone' && b == b'
  {
    ParseInvertsHostname(slugs, zone, b);
    ParseInvertsHostname(slugs', zone', b');
  }

  lemma {:induction false} NoneBlank(parts: seq<string>)
    requires "" !in parts
    ensures |Slugs(parts)| == |parts|
  {
    if parts != [] {
      NoneBlank(parts[1..]);
    }
  }

  lemma SlugsAreSlugs(parts: seq<string>)
    ensures AllSlugs(Slugs(parts))
  {
    forall i | 0 <= i < |Slugs(parts)|
      ensures IsSlug(Slugs(parts)[i])
    {
      SlugifyMakesSlugs(NonEmpty(parts)[i], "item");
    }
  }

  /** Two generated service hostnames are equal exactly when their slugs, their zone and their base domain are. */
  lemma ServiceHostnamesAreUnique(p1: string, s1: string, j1: string, o1: string, b1: string,
                                  p2: string, s2: string, j2: string, o2: string, b2: string)
    ensures ServiceHostname("", p1, s1, j1, o1, b1) == ServiceHostname("", p2, s2, j2, o2, b2)
        <==> Slugs([p1, s1, j1, o1]) == Slugs([p2, s2, j2, o2]) && (p1 == "" <==> p2 == "") && b1 == b2
  {
    SlugsAreSlugs([p1, s1, j1, o1]);
    SlugsAreSlugs([p2, s2, j2, o2]);
    HostnamesAgreeExactly(Slugs([p1, s1, j1, o1]), if p1 != "" then "preview" else "apps", b1,
                          Slugs([p2, s2, j2, o2]), if p2 != "" then "preview" else "apps", b2);
    assert "preview"[0] != "apps"[0];
  }

  /**
   The console hostnames of services, projects and workspaces share a zone: two of them coincide exactly when the
   slugs that are left after dropping blank parts do, and the base domains.
   */
  lemma ConsoleHostnamesAgreeExactly(service: string, project: string, organization: string, b: string,
                                     project': string, organization': string, b': string, workspace: string, b'': string)
    ensures ServiceConsoleHostname(service, project, organization, b) == ProjectConsoleHostname(project', organization', b')
        <==> Slugs([service, project, organization]) == Slugs([project', organization']) && b == b'
    ensures ServiceConsoleHostname(service, project, organization, b) == WorkspaceConsoleHostname(workspace, b'')
        <==> Slugs([service, project, organization]) == [Slugify(workspace, "item")] && b == b''
    ensures ProjectConsoleHostname(project', organization', b') == WorkspaceConsoleHostname(workspace, b'')
        <==> Slugs([project', organization']) == [Slugify(workspace, "item")] && b' == b''
  {
    var three, two, one := Slugs([service, project, organization]), Slugs([project', organization']), [Slugify(workspace, "item")];
    SlugsAreSlugs([service, project, organization]);
    SlugsAreSlugs([project', organization']);
    SlugifyMakesSlugs(workspace, "item");
    HostnamesAgreeExactly(three, "console", b, two, "console", b');
    HostnamesAgreeExactly(three, "console", b, one, "console", b'');
    HostnamesAgreeExactly(two, "console", b', one, "console", b'');
  }

  /** Resources have a zone of their own: their hostnames coincide with each other alone, and exactly when slugs and base do. */
  lemma ResourceHostnamesAgreeExactly(r: string, p: string, o: string, b: string, r': string, p': string, o': string, b': string)
    ensures ResourceConsoleHostname(r, p, o, b) == ResourceConsoleHostname(r', p', o', b')
        <==> Slugs([r, p, o]) == Slugs([r', p', o']) && b == b'
    ensures ResourceConsoleHostname(r, p, o, b) != ServiceConsoleHostname(r', p', o', b')
    ensures ResourceConsoleHostname(r, p, o, b) != ProjectConsoleHostname(p', o', b')
    ensures ResourceConsoleHostname(r, p, o, b) != WorkspaceConsoleHostname(o', b')
  {
    hide Slugs, Slugify, Hostname;
    SlugsAreSlugs([r, p, o]);
    SlugsAreSlugs([r', p', o']);
    SlugsAreSlugs([p', o']);
    OneSlug(o');
    assert "resources"[0] != "console"[0];
    HostnamesAgreeExactly(Slugs([r, p, o]), "resources", b, Slugs([r', p', o']), "resources", b');
    HostnamesAgreeExactly(Slugs([r, p, o]), "resources", b, Slugs([r', p', o']), "console", b');
    HostnamesAgreeExactly(Slugs([r, p, o]), "resources", b, Slugs([p', o']), "console", b');
    HostnamesAgreeExactly(Slugs([r, p, o]), "resources", b, [Slugify(o', "item")], "console", b');
  }

  lemma OneSlug(part: string)
    ensures AllSlugs([Slugify(part, "item")])
  {
    SlugifyMakesSlugs(part, "item");
  }

  /** So they never coincide when no part is blank, while a blank service has the console hostname of its project. */
  lemma ConsoleHostnamesAreDisjoint(service: string, project: string, organization: string, b: string,
                                    project': string, organization': string, b': string, workspace: string, b'': string)
    requires project != "" && organization != "" && project' != "" && organization' != ""
    ensures ServiceConsoleHostname("", project, organization, b) == ProjectConsoleHostname(project, organization, b)
    ensures service != "" ==> ServiceConsoleHostname(service, project, organization, b) != ProjectConsoleHostname(project', organization', b')
    ensures ServiceConsoleHostname(service, project, organization, b) != WorkspaceConsoleHostname(workspace, b'')
    ensures ProjectConsoleHostname(project', organization', b') != WorkspaceConsoleHostname(workspace, b'')
  {
    assert ["", project, organization][1..] == [project, organization];
    assert NonEmpty(["", project, organization]) == NonEmpty([project, organization]);
    NoneBlank([project, organization]);
    NoneBlank([project', organization']);
    if service != "" {
      NoneBlank([service, project, organization]);
    } else {
      assert Slugs([service, project, organization]) == Slugs([project, organization]);
    }
    ConsoleHostnamesAgreeExactly(service, project, organization, b, project', organization', b', workspace, b'');
  }

  lemma JoinLonger(first: string, rest: seq<string>)
    requires rest != []
    ensures Join([first] + rest) == first + "--" + Join(rest)
  {
    assert ([first] + rest)[1..] == rest;
  }

  lemma {:induction false} SlugsOfParts(parts: seq<string>)
    requires "" !in parts
    ensures NonEmpty(parts) == parts
  {
    if parts != [] {
      SlugsOfParts(parts[1..]);
      assert [parts[0]] + parts[1..] == parts;
    }
  }

  lemma JoinedSlugs(a: string, b: string, c: string)
    requires a != "" && b != "" && c != ""
    ensures Join(Slugs([a, b, c])) == Slugify(a, "item") + "--" + (Slugify(b, "item") + "--" + Slugify(c, "item"))
    ensures Join(Slugs([b, c])) == Slugify(b, "item") + "--" + Slugify(c, "item")
  {
    SlugsOfParts([a, b, c]);
    SlugsOfParts([b, c]);
    var x, y, z := Slugify(a, "item"), Slugify(b, "item"), Slugify(c, "item");
    assert Slugs([a, b, c]) == [x] + ([y] + [z]) && Slugs([b, c]) == [y] + [z];
    JoinLonger(x, [y] + [z]);
    JoinLonger(y, [z]);
  }

  /**
   The hostnames of a service with a name, project and organization: the slugs from the service to its organization joined by
   two dashes, then the zone and the base domain. A preview stands in front, and a domain of the service's own replaces it all.
   */
  lemma ServiceHostnamesSpelledOut(custom: string, preview: string, service: string, project: string, organization: string, base: string)
    requires preview != "" && service != "" && project != "" && organization != ""
    ensures var name := Slugify(service, "item") + "--" + (Slugify(project, "item") + "--" + Slugify(organization, "item"));
            && ServiceHostname("", "", service, project, organization, base) == name + ("." + ("apps" + ("." + base)))
            && ServiceHostname("", preview, service, project, organization, base)
               == Slugify(preview, "item") + "--" + name + ("." + ("preview" + ("." + base)))
    ensures custom != "" ==> ServiceHostname(custom, preview, service, project, organization, base) == custom
  {
    JoinedSlugs(service, project, organization);
    NoPreview(service, project, organization);
    WithPreview(preview, service, project, organization);
    hide Slugify, Slugs, Join;
  }

  /** The console hostnames of services, projects and workspaces share a zone, and resources have their own. */
  lemma ConsoleHostnamesSpelledOut(thing: string, project: string, organization: string, base: string)
    requires thing != "" && project != "" && organization != ""
    ensures var two := Slugify(project, "item") + "--" + Slugify(organization, "item");
            var three := Slugify(thing, "item") + "--" + two;
            && ServiceConsoleHostname(thing, project, organization, base) == three + ("." + ("console" + ("." + base)))
            && ResourceConsoleHostname(thing, project, organization, base) == three + ("." + ("resources" + ("." + base)))
            && ProjectConsoleHostname(project, organization, base) == two + ("." + ("console" + ("." + base)))
            && WorkspaceConsoleHostname(organization, base) == Slugify(organization, "item") + ("." + ("console" + ("." + base)))
  {
    JoinedSlugs(thing, project, organization);
    JoinOne(Slugify(organization, "item"));
    hide Slugify, Slugs, Join;
  }

  lemma JoinOne(slug: string)
    ensures Join([slug]) == slug
  {
  }

  lemma NoPreview(thing: string, project: string, organization: string)
    ensures Slugs(["", thing, project, organization]) == Slugs([thing, project, organization])
  {
    assert ["", thing, project, organization][1..] == [thing, project, organization];
    assert NonEmpty(["", thing, project, organization]) == NonEmpty([thing, project, organization]);
  }

  lemma WithPreview(preview: string, thing: string, project: string, organization: string)
    requires preview != "" && thing != "" && project != "" && organization != ""
    ensures Join(Slugs([preview, thing, project, organization]))
         == Slugify(preview, "item") + "--" + Join(Slugs([thing, project, organization]))
  {
    SlugsOfParts([preview, thing, project, organization]);
    SlugsOfParts([thing, project, organization]);
    assert Slugs([preview, thing, project, organization]) == [Slugify(preview, "item")] + Slugs([thing, project, organization]);
    JoinLonger(Slugify(preview, "item"), Slugs([thing, project, organization]));
  }
}
