/** CloudPanel's shared templates as cli/inject.ts patches them: a pristine snapshot and a marked block for each injection. */
module Templates {
  import opened Outcomes
  import opened Text

  /** One addon's request to patch one template, its snippet already made for the addon's address. */
  datatype Injection = Injection(
    addon: string, slug: string, template: string,
    anchorBefore: Option<string>, anchorAfter: Option<string>, snippet: string)

  datatype State = Fine | MissingAnchor | StaleContent | TemplateAbsent | UpstreamChanged | AnchorNotFound

  datatype Status = Status(addon: string, slug: string, state: State)

  /** SHA-256, taken to tell all texts apart. */
  datatype Digest = Digest(of: string)

  datatype Snapshot = Snapshot(pristine: string, hash: Digest)

  // ---- Markers ----

  const HEAD := "{# clp-addons:"
  const START_TAIL := ":start #}"
  const END_TAIL := ":end #}"
  const INDENT := "\n        "

  predicate IsNameChar(c: char) {
    'a' <= c <= 'z' || '0' <= c <= '9' || c == '_' || c == '-'
  }

  function NameRun(r: string): (n: nat)
    ensures n <= |r|
  {
    if r != [] && IsNameChar(r[0]) then 1 + NameRun(r[1..]) else 0
  }

  /** The length of a marker at the head of `r`: the head, two names and the tail. */
  function MarkerLength(r: string, tail: string): (n: Option<nat>)
    ensures n.Some? ==> |HEAD| < n.value <= |r|
  {
    if !StartsWith(r, HEAD) then None
    else
      var addon := NameRun(r[|HEAD|..]);
      var colon := |HEAD| + addon;
      if addon == 0 || colon == |r| || r[colon] != ':' then None
      else
        var slug := NameRun(r[colon + 1..]);
        if slug == 0 || !StartsWith(r[colon + 1 + slug..], tail) then None
        else Some(colon + 1 + slug + |tail|)
  }

  function BlankRun(r: string): (n: nat)
    ensures n <= |r|
  {
    if r != [] && IsBlank(r[0]) then 1 + BlankRun(r[1..]) else 0
  }

  /** Up to and with the first end marker. */
  function EndLength(r: string): (n: Option<nat>)
    ensures n.Some? ==> n.value <= |r|
  {
    match MarkerLength(r, END_TAIL)
    case Some(n) => Some(n)
    case None =>
      if r == [] then None
      else match EndLength(r[1..])
        case None => None
        case Some(n) => Some(1 + n)
  }

  /** A whole block at the head of `r`, with the line break and blanks ahead of it. */
  function BlockLength(r: string): (n: Option<nat>)
    ensures n.Some? ==> 0 < n.value <= |r|
  {
    var line := if StartsWith(r, "\n") then 1 else 0;
    var at := line + BlankRun(r[line..]);
    match MarkerLength(r[at..], START_TAIL)
    case None => None
    case Some(start) =>
      match EndLength(r[at + start..])
      case None => None
      case Some(end) => Some(at + start + end)
  }

  /** The text without any block, whichever addon it is of. */
  function Stripped(r: string): string
    decreases |r|
  {
    if r == [] then ""
    else match BlockLength(r)
      case Some(n) => Stripped(r[n..])
      case None => [r[0]] + Stripped(r[1..])
  }

  function StartMarker(addon: string, slug: string): string {
    HEAD + addon + ":" + slug + START_TAIL
  }

  function EndMarker(addon: string, slug: string): string {
    HEAD + addon + ":" + slug + END_TAIL
  }

  function Wrap(inj: Injection): string {
    INDENT + StartMarker(inj.addon, inj.slug) + inj.snippet + INDENT + EndMarker(inj.addon, inj.slug)
  }

  /** The block of one injection in a text, from its start marker to its end marker. */
  function BlockOf(content: string, addon: string, slug: string): Option<string> {
    match IndexOf(content, StartMarker(addon, slug))
    case None => None
    case Some(from) =>
      match IndexFrom(content, EndMarker(addon, slug), from)
      case None => None
      case Some(to) => Some(content[from..to + |EndMarker(addon, slug)|])
  }

  // ---- Placing one injection ----

  predicate IsBefore(inj: Injection) {
    inj.anchorBefore.Some? && inj.anchorBefore.value != ""
  }

  /** Where the block goes in the text, if its anchor is there. */
  function Position(rendered: string, inj: Injection): (at: Option<nat>)
    ensures at.Some? ==> at.value <= |rendered|
  {
    if IsBefore(inj) then IndexOf(rendered, inj.anchorBefore.value)
    else if inj.anchorAfter.None? || inj.anchorAfter.value == "" then None
    else match IndexOf(rendered, inj.anchorAfter.value)
      case None => None
      case Some(at) => Some(at + |inj.anchorAfter.value|)
  }

  function Placed(rendered: string, inj: Injection): string {
    match Position(rendered, inj)
    case None => rendered
    case Some(at) => rendered[..at] + Wrap(inj) + rendered[at..]
  }

  function PlacedAll(rendered: string, list: seq<Injection>): string
    decreases |list|
  {
    if list == [] then rendered else PlacedAll(Placed(rendered, list[0]), list[1..])
  }

  function PlacedStatuses(rendered: string, list: seq<Injection>): seq<Status>
    decreases |list|
  {
    if list == [] then []
    else
      [Status(list[0].addon, list[0].slug, if Position(rendered, list[0]).Some? then Fine else AnchorNotFound)]
      + PlacedStatuses(Placed(rendered, list[0]), list[1..])
  }

  // ---- The order of injections ----

  /** How two names compare: below, at or above zero. */
  type Order = (string, string) -> int

  predicate NotAfter(order: Order, a: Injection, b: Injection) {
    order(a.addon, b.addon) < 0 || (order(a.addon, b.addon) == 0 && order(a.slug, b.slug) <= 0)
  }

  function Reversed(order: Order): Order {
    (x, y) => order(y, x)
  }

  function InsertSorted(list: seq<Injection>, inj: Injection, order: Order): seq<Injection> {
    if list == [] then [inj]
    else
      var k := |list| - 1;
      if NotAfter(order, list[k], inj) then list + [inj] else InsertSorted(list[..k], inj, order) + [list[k]]
  }

  function Sorted(list: seq<Injection>, order: Order): seq<Injection> {
    if list == [] then [] else InsertSorted(Sorted(list[..|list| - 1], order), list[|list| - 1], order)
  }

  function Filtered(list: seq<Injection>, before: bool): seq<Injection> {
    if list == [] then []
    else
      var k := |list| - 1;
      Filtered(list[..k], before) + (if IsBefore(list[k]) == before then [list[k]] else [])
  }

  /** First those before their anchor, ascending; then those after it, descending. */
  function InOrder(list: seq<Injection>, order: Order): seq<Injection> {
    Sorted(Filtered(list, true), order) + Sorted(Filtered(list, false), Reversed(order))
  }

  function Rendered(pristine: string, list: seq<Injection>, order: Order): string {
    PlacedAll(pristine, InOrder(list, order))
  }

  // ---- One template ----

  /** A template that exists, and its snapshot when an addon has patched it. */
  datatype Template = Template(onDisk: string, snapshot: Option<Snapshot>)

  /** The template once it was made to hold exactly the injections of the list. */
  function RenderedFile(t: Template, list: seq<Injection>, order: Order): Template {
    var upstream := Stripped(t.onDisk);
    var snapshot := if t.snapshot.Some? then t.snapshot.value else Snapshot(upstream, Digest(upstream));
    if snapshot.hash != Digest(upstream) then t.(snapshot := Some(snapshot))
    else Template(Rendered(snapshot.pristine, list, order), if list == [] then None else Some(snapshot))
  }

  function SameStatus(list: seq<Injection>, state: State): seq<Status> {
    seq(|list|, i requires 0 <= i < |list| => Status(list[i].addon, list[i].slug, state))
  }

  /** What rendering reports for the injections of a list. */
  function RenderedStatuses(t: Option<Template>, list: seq<Injection>, order: Order): seq<Status> {
    if t.None? then SameStatus(list, TemplateAbsent)
    else
      var upstream := Stripped(t.value.onDisk);
      var snapshot := if t.value.snapshot.Some? then t.value.snapshot.value else Snapshot(upstream, Digest(upstream));
      if snapshot.hash != Digest(upstream) then SameStatus(list, UpstreamChanged)
      else PlacedStatuses(snapshot.pristine, InOrder(list, order))
  }

  function InspectedState(inj: Injection, t: Option<Template>): State {
    match t
    case None => TemplateAbsent
    case Some(Template(onDisk, snapshot)) =>
      var upstream := Stripped(onDisk);
      if snapshot.Some? && snapshot.value.hash != Digest(upstream) then UpstreamChanged
      else
        var anchor := if inj.anchorBefore.Some? then inj.anchorBefore else inj.anchorAfter;
        if anchor.None? || anchor.value == "" || !Contains(upstream, anchor.value) then AnchorNotFound
        else
          var present := BlockOf(onDisk, inj.addon, inj.slug);
          if present.None? then MissingAnchor
          else if present != BlockOf(Wrap(inj), inj.addon, inj.slug) then StaleContent
          else Fine
  }

  function ForTemplate(injections: seq<Injection>, file: string): seq<Injection> {
    if injections == [] then []
    else
      var k := |injections| - 1;
      ForTemplate(injections[..k], file) + (if injections[k].template == file then [injections[k]] else [])
  }

  // ---- The templates directory and the state directory ----

  class TemplateStore {
    const order: Order
    var files: map<string, string>
    var snapshots: map<string, Snapshot>

    constructor (files: map<string, string>, order: Order)
      ensures this.files == files && snapshots == map[] && this.order == order
    {
      this.files, snapshots, this.order := files, map[], order;
    }

    /** A template as it is on disk. */
    function At(file: string): Option<Template>
      reads this
    {
      FileOf(files, snapshots, file)
    }

    /** The loops over the sorted injections. */
    method RenderText(pristine: string, list: seq<Injection>) returns (rendered: string, statuses: seq<Status>)
      ensures rendered == Rendered(pristine, list, order)
      ensures statuses == PlacedStatuses(pristine, InOrder(list, order))
    {
      hide Placed, Sorted, Filtered;
      var sorted := InOrder(list, order);
      rendered := pristine;
      statuses := [];
      var k := 0;
      assert sorted[0..] == sorted;
      while k < |sorted|
        invariant k <= |sorted|
        invariant PlacedAll(rendered, sorted[k..]) == PlacedAll(pristine, sorted)
        invariant statuses + PlacedStatuses(rendered, sorted[k..]) == PlacedStatuses(pristine, sorted)
      {
        var inj := sorted[k];
        assert sorted[k..][0] == inj && sorted[k..][1..] == sorted[k + 1..];
        PlaceOne(rendered, sorted[k..], statuses);
        statuses := statuses + [Status(inj.addon, inj.slug, if Position(rendered, inj).Some? then Fine else AnchorNotFound)];
        rendered := Placed(rendered, inj);
        k := k + 1;
      }
    }

    /** Renders one file from its pristine snapshot, in one pass over its injections. */
    method RenderFile(file: string, list: seq<Injection>) returns (statuses: seq<Status>, changed: bool)
      modifies this
      ensures files.Keys == old(files).Keys
      ensures files - {file} == old(files) - {file} && snapshots - {file} == old(snapshots) - {file}
      ensures statuses == RenderedStatuses(old(At(file)), list, order)
      ensures file in files ==> At(file) == Some(RenderedFile(old(At(file)).value, list, order))
      ensures changed <==> files != old(files)
    {
      if file !in files {
        return SameStatus(list, TemplateAbsent), false;
      }
      hide Stripped, Rendered, InOrder, PlacedStatuses, SameStatus, RenderedFile, RenderedStatuses;
      RenderedIs(At(file).value, list, order);
      var onDisk := files[file];
      var upstream := Stripped(onDisk);
      if file !in snapshots {
        PutElsewhere(snapshots, file, Snapshot(upstream, Digest(upstream)));
        snapshots := snapshots[file := Snapshot(upstream, Digest(upstream))];
      }
      var snapshot := snapshots[file];
      if snapshot.hash != Digest(upstream) {
        return SameStatus(list, UpstreamChanged), false;
      }
      var rendered;
      rendered, statuses := RenderText(snapshot.pristine, list);
      changed := rendered != onDisk;
      if changed {
        PutElsewhere(files, file, rendered);
        files := files[file := rendered];
      }
      if list == [] {
        TakenElsewhere(snapshots, file);
        snapshots := snapshots - {file};
      }
    }

    /** Makes every template hold exactly its injections of the list, those patched before included. */
    method Reconcile(injections: seq<Injection>) returns (changed: bool)
      modifies this
      ensures files.Keys == old(files).Keys
      ensures forall f :: f in files ==> At(f) == Some(ReconciledFile(old(At(f)).value, ForTemplate(injections, f), order))
      ensures changed <==> files != old(files)
    {
      hide RenderedFile, ForTemplate, Halfway, FileOf;
      changed := false;
      ghost var before, kept := files, snapshots;
      var todo := (set i | 0 <= i < |injections| :: injections[i].template) + (set f | f in snapshots && f in files);
      ghost var visited, done := todo, {};
      NoneDone(before, kept, injections, order);
      while todo != {}
        invariant done !! todo && done + todo == visited
        invariant Halfway(before, kept, files, snapshots, done, injections, order)
        invariant changed <==> files != before
        decreases todo
      {
        var file :| file in todo;
        ghost var filesWere, snapshotsWere := files, snapshots;
        var _, fileChanged := RenderFile(file, ForTemplate(injections, file));
        OneMoreDone(before, kept, filesWere, snapshotsWere, files, snapshots, done, file, injections, order);
        changed := changed || fileChanged;
        todo, done := todo - {file}, done + {file};
      }
      AllDone(before, kept, files, snapshots, done, injections, order);
    }
  }

  function FileOf(files: map<string, string>, snapshots: map<string, Snapshot>, file: string): (t: Option<Template>)
    ensures t.Some? <==> file in files
  {
    if file in files then Some(Template(files[file], if file in snapshots then Some(snapshots[file]) else None)) else None
  }

  lemma PutElsewhere<V>(m: map<string, V>, key: string, value: V)
    ensures m[key := value] - {key} == m - {key}
  {
  }

  lemma TakenElsewhere<V>(m: map<string, V>, key: string)
    ensures m - {key} - {key} == m - {key}
  {
  }

  lemma RenderedIs(t: Template, list: seq<Injection>, order: Order)
    ensures
      var upstream := Stripped(t.onDisk);
      var snapshot := if t.snapshot.Some? then t.snapshot.value else Snapshot(upstream, Digest(upstream));
      && RenderedFile(t, list, order)
          == (if snapshot.hash != Digest(upstream) then Template(t.onDisk, Some(snapshot))
              else Template(Rendered(snapshot.pristine, list, order), if list == [] then None else Some(snapshot)))
      && RenderedStatuses(Some(t), list, order)
          == (if snapshot.hash != Digest(upstream) then SameStatus(list, UpstreamChanged)
              else PlacedStatuses(snapshot.pristine, InOrder(list, order)))
  {
    hide Stripped, Rendered, InOrder, PlacedStatuses, SameStatus;
  }

  // ---- A reconciliation on its way ----

  /** The templates `done` are rendered, and the others are as they were. */
  ghost predicate Halfway(before: map<string, string>, kept: map<string, Snapshot>,
      files: map<string, string>, snapshots: map<string, Snapshot>, done: set<string>, injections: seq<Injection>, order: Order)
  {
    && files.Keys == before.Keys
    && (forall f :: f in before ==>
          FileOf(files, snapshots, f)
            == (if f in done then Some(RenderedFile(FileOf(before, kept, f).value, ForTemplate(injections, f), order))
                else FileOf(before, kept, f)))
  }

  lemma NoneDone(before: map<string, string>, kept: map<string, Snapshot>, injections: seq<Injection>, order: Order)
    ensures Halfway(before, kept, before, kept, {}, injections, order)
  {
  }

  lemma FileKept(files: map<string, string>, snapshots: map<string, Snapshot>,
      files': map<string, string>, snapshots': map<string, Snapshot>, file: string, f: string)
    requires files' - {file} == files - {file} && snapshots' - {file} == snapshots - {file} && f != file
    ensures FileOf(files', snapshots', f) == FileOf(files, snapshots, f)
    ensures (f in files <==> f in files') && (f in files ==> files'[f] == files[f])
  {
    assert f in files <==> f in files - {file};
    assert f in files' <==> f in files' - {file};
    assert f in snapshots <==> f in snapshots - {file};
    assert f in snapshots' <==> f in snapshots' - {file};
  }

  lemma FileText(files: map<string, string>, snapshots: map<string, Snapshot>, file: string)
    requires file in files
    ensures FileOf(files, snapshots, file).value.onDisk == files[file]
  {
  }

  lemma OneMoreDone(before: map<string, string>, kept: map<string, Snapshot>,
      files: map<string, string>, snapshots: map<string, Snapshot>, files': map<string, string>, snapshots': map<string, Snapshot>,
      done: set<string>, file: string, injections: seq<Injection>, order: Order)
    requires Halfway(before, kept, files, snapshots, done, injections, order) && file !in done
    requires files'.Keys == files.Keys && files' - {file} == files - {file} && snapshots' - {file} == snapshots - {file}
    requires file in files ==>
      FileOf(files', snapshots', file) == Some(RenderedFile(FileOf(files, snapshots, file).value, ForTemplate(injections, file), order))
    ensures Halfway(before, kept, files', snapshots', done + {file}, injections, order)
    ensures files' != before <==> files != before || files' != files
  {
    hide RenderedFile, ForTemplate, FileOf;
    forall f | f in before && f != file
      ensures FileOf(files', snapshots', f) == FileOf(files, snapshots, f)
    {
      FileKept(files, snapshots, files', snapshots', file, f);
    }
    if file in before {
      FileText(files, snapshots, file);
      FileText(before, kept, file);
    }
    if files' == before {
      forall f | f in files
        ensures files[f] == files'[f]
      {
        if f != file {
          FileKept(files, snapshots, files', snapshots', file, f);
        }
      }
    }
  }

  lemma AllDone(before: map<string, string>, kept: map<string, Snapshot>,
      files: map<string, string>, snapshots: map<string, Snapshot>, done: set<string>, injections: seq<Injection>, order: Order)
    requires Halfway(before, kept, files, snapshots, done, injections, order)
    requires done == (set i | 0 <= i < |injections| :: injections[i].template) + (set f | f in kept && f in before)
    ensures files.Keys == before.Keys
    ensures forall f :: f in before ==>
      FileOf(files, snapshots, f) == Some(ReconciledFile(FileOf(before, kept, f).value, ForTemplate(injections, f), order))
  {
    hide RenderedFile, ForTemplate;
    forall f | f in before
      ensures FileOf(files, snapshots, f) == Some(ReconciledFile(FileOf(before, kept, f).value, ForTemplate(injections, f), order))
    {
      NoneForTemplate(injections, f);
    }
  }

  /** A template a reconciliation visits is rendered; one without injections or snapshot is not visited. */
  function ReconciledFile(t: Template, list: seq<Injection>, order: Order): Template {
    if list == [] && t.snapshot.None? then t else RenderedFile(t, list, order)
  }

  lemma {:induction false} NoneForTemplate(injections: seq<Injection>, file: string)
    ensures ForTemplate(injections, file) == [] <==> forall i :: 0 <= i < |injections| ==> injections[i].template != file
  {
    if injections != [] {
      var k := |injections| - 1;
      NoneForTemplate(injections[..k], file);
      assert forall i :: 0 <= i < k ==> injections[..k][i] == injections[i];
      if injections[k].template == file {
        assert ForTemplate(injections, file)[|ForTemplate(injections[..k], file)|] == injections[k];
      }
    }
  }

  lemma PlaceOne(rendered: string, list: seq<Injection>, statuses: seq<Status>)
    requires list != []
    ensures PlacedAll(rendered, list) == PlacedAll(Placed(rendered, list[0]), list[1..])
    ensures statuses + PlacedStatuses(rendered, list)
      == statuses + [Status(list[0].addon, list[0].slug, if Position(rendered, list[0]).Some? then Fine else AnchorNotFound)]
         + PlacedStatuses(Placed(rendered, list[0]), list[1..])
  {
    hide Placed, Position;
  }
}