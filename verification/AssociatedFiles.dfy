/** Associated files: a batch of uploads installed all or nothing over two stores, and the purge of one file
    (app/services/extra_files.py). A fault plan decides which file-system and database steps fail. */
module AssociatedFiles {
  import opened Wrappers

  type Content = string

  /** Where bytes can be: an installed file, or one of the temporary names a call makes up for itself. */
  datatype Path = Installed(rel: string) | Staged(temp: nat) | Backup(temp: nat) | Quarantined(temp: nat)

  /** The fields an upload rewrites on an existing record. */
  datatype Meta = Meta(originalName: string, size: nat, mime: string, digest: string, uploadedBy: string, uploadedAt: nat,
                       source: string)

  datatype Record = Record(pn: string, rev: string, rel: string, meta: Meta)

  datatype Upload = Upload(filename: string, content: Content)

  /** What the call is told, and the helpers it leans on: file-name cleaning (None refuses the name), case folding,
      the storage path of a file name, whether that path resolves, MIME guess and content digest. */
  datatype Request = Request(pn: string, rev: string, uploadedBy: string, maxBytes: nat, now: nat,
                             clean: string -> Option<string>, fold: string -> string, relPath: string -> string,
                             resolves: string -> bool, mime: string -> string, digest: Content -> string)

  /** A staged upload, with the record it will update as it was read while staging. */
  datatype Item = Item(filename: string, rel: string, existing: Option<nat>, loaded: Option<Record>, temp: nat, content: Content)

  /** A finished item: the record written, its former fields if it existed before, the path, and whether a file was
      moved aside for it. */
  datatype Done = Done(id: nat, snapshot: Option<Meta>, rel: string, temp: nat, hadBackup: bool)

  /** How a call ends: installed; failed and rolled back; or installed but failed while dropping backups. */
  datatype Outcome = Stored(ids: seq<nat>) | RolledBack | StoredButFailed(written: seq<nat>)

  /** How a purge ends: done; done but failed while dropping the quarantined file; undone; or the file lost because
      moving it back failed as well. */
  datatype PurgeEnd = Purged | PurgedButFailed | Refused | Lost

  function NewMeta(q: Request, filename: string, content: Content, former: string): Meta {
    Meta(filename, |content|, q.mime(filename), q.digest(content),
         if q.uploadedBy != "" then q.uploadedBy else former, q.now, "upload")
  }

  /** The record an item leaves behind. */
  function RecordFor(q: Request, item: Item): Record {
    match item.loaded
    case None => Record(q.pn, q.rev, item.rel, NewMeta(q, item.filename, item.content, ""))
    case Some(r) => r.(meta := NewMeta(q, item.filename, item.content, r.meta.uploadedBy))
  }

  /** The record an upload to this path updates. */
  predicate BelongsTo(q: Request, r: Record, rel: string) {
    q.fold(r.pn) == q.fold(q.pn) && q.fold(r.rev) == q.fold(q.rev) && r.rel == rel
  }

  // ----- Views of the files -----

  /** The installed files: what anyone but the running call can see. */
  function Visible(files: map<Path, Content>): map<Path, Content> {
    map p | p in files && p.Installed? :: files[p]
  }

  /** Installed files and files moved aside. */
  function Kept(files: map<Path, Content>): map<Path, Content> {
    map p | p in files && (p.Installed? || p.Backup?) :: files[p]
  }

  lemma KeptSeesVisible(a: map<Path, Content>, b: map<Path, Content>)
    requires Kept(a) == Kept(b)
    ensures Visible(a) == Visible(b)
  {
    assert forall p :: p in Visible(a) <==> p in Kept(a) && p.Installed?;
    assert forall p :: p in Visible(b) <==> p in Kept(b) && p.Installed?;
    assert forall p :: p in Visible(a) ==> Visible(a)[p] == Kept(a)[p];
    assert forall p :: p in Visible(b) ==> Visible(b)[p] == Kept(b)[p];
  }

  function Moved(files: map<Path, Content>, src: Path, dst: Path): map<Path, Content>
    requires src in files
  {
    (files - {src})[dst := files[src]]
  }

  lemma KeptMoveAside(files: map<Path, Content>, rel: string, temp: nat)
    requires Installed(rel) in files
    ensures Kept(Moved(files, Installed(rel), Backup(temp)))
            == (Kept(files) - {Installed(rel)})[Backup(temp) := Kept(files)[Installed(rel)]]
  {
  }

  lemma KeptMoveIn(files: map<Path, Content>, rel: string, temp: nat)
    requires Staged(temp) in files
    ensures Kept(Moved(files, Staged(temp), Installed(rel))) == Kept(files)[Installed(rel) := files[Staged(temp)]]
  {
  }

  lemma KeptMoveBack(files: map<Path, Content>, rel: string, temp: nat)
    requires Backup(temp) in files
    ensures Kept(Moved(files, Backup(temp), Installed(rel)))
            == (Kept(files) - {Backup(temp)})[Installed(rel) := Kept(files)[Backup(temp)]]
  {
  }

  lemma KeptUnlink(files: map<Path, Content>, rel: string)
    ensures Kept(files - {Installed(rel)}) == Kept(files) - {Installed(rel)}
  {
  }

  lemma PutBackIsKept(now: map<Path, Content>, kept: map<Path, Content>, final: Path, backup: Path)
    requires now - {final, backup} == kept - {final} && backup !in kept && final != backup
    requires final in kept ==> backup in now && now[backup] == kept[final]
    requires final !in kept ==> backup !in now
    ensures final !in kept ==> now - {final} == kept
    ensures final in kept ==> ((now - {final}) - {backup})[final := now[backup]] == kept
  {
    forall p | p != final && p != backup
      ensures p in now <==> p in kept
      ensures p in now ==> now[p] == kept[p]
    {
      assert p in now <==> p in now - {final, backup};
      assert p in kept <==> p in kept - {final};
      assert p in now ==> (now - {final, backup})[p] == now[p];
      assert p in kept ==> (kept - {final})[p] == kept[p];
    }
  }

  /** The files under the other temporary names are left alone. */
  ghost predicate OtherTemps(before: map<Path, Content>, now: map<Path, Content>, temp: nat) {
    && (forall t :: t != temp && Staged(t) in before ==> Staged(t) in now && now[Staged(t)] == before[Staged(t)])
    && (forall p :: p in now && !p.Installed? ==> p in before || p == Backup(temp))
  }

  /** The kept files after an item: its content installed, what was there moved aside. */
  function Replaced(kept: map<Path, Content>, rel: string, temp: nat, content: Content): map<Path, Content> {
    (if Installed(rel) in kept then kept[Backup(temp) := kept[Installed(rel)]] else kept)[Installed(rel) := content]
  }

  /** Taking one finished item back on the file side. */
  function Restored(kept: map<Path, Content>, d: Done): map<Path, Content> {
    var cleared := kept - {Installed(d.rel)};
    if d.hadBackup && Backup(d.temp) in cleared then Moved(cleared, Backup(d.temp), Installed(d.rel)) else cleared
  }

  lemma RestoredUndoesReplaced(kept: map<Path, Content>, d: Done, content: Content)
    requires Backup(d.temp) !in kept && d.hadBackup == (Installed(d.rel) in kept)
    ensures Restored(Replaced(kept, d.rel, d.temp, content), d) == kept
  {
  }

  /** Taking finished items back, last first. */
  function AllRestored(kept: map<Path, Content>, done: seq<Done>): map<Path, Content>
    decreases |done|
  {
    if done == [] then kept else AllRestored(Restored(kept, done[|done| - 1]), done[..|done| - 1])
  }

  // ----- The record side -----

  /** Between the records before the call and the records now: only fields of updated records differ, every former
      field is in a snapshot, and every new record belongs to exactly one finished item. */
  ghost predicate RecordsTraced(before: map<nat, Record>, now: map<nat, Record>, done: seq<Done>) {
    && (forall id :: id in before ==> id in now && now[id].(meta := before[id].meta) == before[id])
    && (forall id :: id in before && now[id] != before[id] ==>
          exists k :: 0 <= k < |done| && done[k].id == id && done[k].snapshot.Some?)
    && (forall id :: id in now && id !in before ==>
          exists k :: 0 <= k < |done| && done[k].id == id && done[k].snapshot.None?)
    && (forall k :: 0 <= k < |done| && done[k].snapshot.Some? ==>
          done[k].id in before && done[k].snapshot.value == before[done[k].id].meta)
    && (forall k :: 0 <= k < |done| && done[k].snapshot.None? ==> done[k].id in now && done[k].id !in before)
    && (forall j, k :: 0 <= j < k < |done| && done[j].snapshot.None? && done[k].snapshot.None? ==> done[j].id != done[k].id)
  }

  function RecordRestored(now: map<nat, Record>, d: Done): map<nat, Record>
    requires d.snapshot.Some? ==> d.id in now
  {
    if d.snapshot.None? then now - {d.id} else now[d.id := now[d.id].(meta := d.snapshot.value)]
  }

  /** What undoing the last installation leaves to undo. */
  lemma UndoableBack(files0: map<Path, Content>, records0: map<nat, Record>, files: map<Path, Content>,
                     records: map<nat, Record>, done: seq<Done>)
    requires Undoable(files0, records0, files, records, done) && done != []
    ensures var d, rest := done[|done| - 1], done[..|done| - 1];
            && (d.snapshot.Some? ==> d.id in records)
            && AllRestored(Restored(Kept(files), d), rest) == Kept(files0)
            && RecordsTraced(records0, RecordRestored(records, d), rest)
  {
    TracedUndo(records0, records, done);
  }

  lemma TracedUndo(before: map<nat, Record>, now: map<nat, Record>, done: seq<Done>)
    requires RecordsTraced(before, now, done) && done != []
    ensures var n := |done| - 1; RecordsTraced(before, RecordRestored(now, done[n]), done[..n])
  {
    var n := |done| - 1;
    var after := RecordRestored(now, done[n]);
    forall id | id in before && after[id] != before[id]
      ensures exists k :: 0 <= k < n && done[..n][k].id == id && done[..n][k].snapshot.Some?
    {
      EarlierTrace(before, now, done, id);
    }
    forall id | id in after && id !in before
      ensures exists k :: 0 <= k < n && done[..n][k].id == id && done[..n][k].snapshot.None?
    {
      EarlierTrace(before, now, done, id);
    }
  }

  /** What is still changed or new once the last item is undone was changed or made by an earlier item. */
  lemma EarlierTrace(before: map<nat, Record>, now: map<nat, Record>, done: seq<Done>, id: nat)
    requires RecordsTraced(before, now, done) && done != []
    ensures var n := |done| - 1;
            var after := RecordRestored(now, done[n]);
            && (id in before && id in after && after[id] != before[id] ==>
                  exists k :: 0 <= k < n && done[..n][k].id == id && done[..n][k].snapshot.Some?)
            && (id in after && id !in before ==>
                  exists k :: 0 <= k < n && done[..n][k].id == id && done[..n][k].snapshot.None?)
  {
    var n := |done| - 1;
    var after := RecordRestored(now, done[n]);
    if id in before && id in after && after[id] != before[id] {
      var k :| 0 <= k < |done| && done[k].id == id && done[k].snapshot.Some?;
      assert k < n && done[..n][k] == done[k];
    } else if id in after && id !in before {
      var k :| 0 <= k < |done| && done[k].id == id && done[k].snapshot.None?;
      assert k < n && done[..n][k] == done[k];
    }
  }

  lemma TracedEmpty(before: map<nat, Record>, now: map<nat, Record>)
    requires RecordsTraced(before, now, [])
    ensures now == before
  {
    assert now.Keys == before.Keys;
  }

  // ----- What a committed batch leaves behind -----

  /** Installed contents after the batch: each item's bytes at its path, in order. */
  function FilesAfter(visible: map<Path, Content>, items: seq<Item>): map<Path, Content> {
    if items == [] then visible
    else
      var n := |items| - 1;
      FilesAfter(visible, items[..n])[Installed(items[n].rel) := items[n].content]
  }

  /** Records after the batch, given the record each item wrote. */
  function RecordsAfter(q: Request, records: map<nat, Record>, items: seq<Item>, ids: seq<nat>): map<nat, Record>
    requires |ids| == |items|
  {
    if items == [] then records
    else
      var n := |items| - 1;
      RecordsAfter(q, records, items[..n], ids[..n])[ids[n] := RecordFor(q, items[n])]
  }

  // ----- Staging -----

  /** One staged item: its bytes are in place, and what was read about an existing record is what is stored. */
  ghost predicate StagedAt(q: Request, up: Upload, item: Item, files: map<Path, Content>, records: map<nat, Record>) {
    && Staged(item.temp) in files && files[Staged(item.temp)] == item.content == up.content
    && q.clean(up.filename) == Some(item.filename) && item.rel == q.relPath(item.filename)
    && (item.existing.Some? <==> item.loaded.Some?)
    && (item.existing.Some? ==> item.existing.value in records && records[item.existing.value] == item.loaded.value
                                && BelongsTo(q, item.loaded.value, item.rel))
    && (item.existing.None? ==> Installed(item.rel) !in files && forall id :: id in records ==> !BelongsTo(q, records[id], item.rel))
  }

  ghost predicate StagedItems(q: Request, uploads: seq<Upload>, items: seq<Item>, base: nat, files: map<Path, Content>,
                              records: map<nat, Record>)
  {
    && |items| <= |uploads|
    && (forall k :: 0 <= k < |items| ==> items[k].temp == base + k)
    && (forall k :: 0 <= k < |items| ==> StagedAt(q, uploads[k], items[k], files, records))
  }

  lemma NothingShows(before: map<Path, Content>, now: map<Path, Content>, base: nat)
    requires Kept(now) == Kept(before) && forall t: nat :: Backup(t) in before ==> t < base
    ensures Visible(now) == Visible(before) && forall t: nat :: Backup(t) in now ==> t < base
  {
    KeptSeesVisible(now, before);
    forall t: nat | Backup(t) in now ensures t < base {
      assert Backup(t) in Kept(before);
    }
  }

  lemma StagedMore(q: Request, uploads: seq<Upload>, items: seq<Item>, base: nat, files: map<Path, Content>,
                   records: map<nat, Record>, item: Item)
    requires StagedItems(q, uploads, items, base, files, records) && |items| < |uploads|
    requires item.temp == base + |items|
    requires StagedAt(q, uploads[|items|], item, files[Staged(item.temp) := item.content], records)
    ensures StagedItems(q, uploads, items + [item], base, files[Staged(item.temp) := item.content], records)
    ensures Visible(files[Staged(item.temp) := item.content]) == Visible(files)
  {
    var now, more := files[Staged(item.temp) := item.content], items + [item];
    forall k | 0 <= k < |more| ensures StagedAt(q, uploads[k], more[k], now, records) {
      if k < |items| {
        assert StagedAt(q, uploads[k], items[k], files, records);
        assert Staged(items[k].temp) != Staged(item.temp);
      }
    }
  }

  /** Moving aside, seen in the kept files: what the later steps start from, and what they can be undone to. */
  lemma AsideKept(before: map<Path, Content>, aside: map<Path, Content>, item: Item, hadBackup: bool, c: Content)
    requires Staged(item.temp) in before && Backup(item.temp) !in before
    requires hadBackup <==> Installed(item.rel) in before
    requires aside == if hadBackup then Moved(before, Installed(item.rel), Backup(item.temp)) else before
    ensures Staged(item.temp) in aside && aside[Staged(item.temp)] == before[Staged(item.temp)]
    ensures Kept(aside)[Installed(item.rel) := c] == Replaced(Kept(before), item.rel, item.temp, c)
    ensures Kept(aside) - {Installed(item.rel), Backup(item.temp)} == Kept(before) - {Installed(item.rel)}
    ensures Kept(aside)[Installed(item.rel) := c] - {Installed(item.rel), Backup(item.temp)}
            == Kept(before) - {Installed(item.rel)}
  {
    if hadBackup {
      KeptMoveAside(before, item.rel, item.temp);
    }
  }

  // ----- Steps of a batch -----

  lemma RestoredMore(kept: map<Path, Content>, start: map<Path, Content>, done: seq<Done>, d: Done, content: Content)
    requires AllRestored(kept, done) == start
    requires Backup(d.temp) !in kept && d.hadBackup == (Installed(d.rel) in kept)
    ensures AllRestored(Replaced(kept, d.rel, d.temp, content), done + [d]) == start
  {
    RestoredUndoesReplaced(kept, d, content);
    assert (done + [d])[..|done|] == done;
  }

  lemma TracedMore(q: Request, before: map<nat, Record>, now: map<nat, Record>, done: seq<Done>, item: Item, d: Done)
    requires RecordsTraced(before, now, done)
    requires item.existing.Some? <==> item.loaded.Some?
    requires item.existing.Some? ==> d.id == item.existing.value && d.id in before && before[d.id] == item.loaded.value
                                     && d.snapshot == Some(item.loaded.value.meta)
    requires item.existing.None? ==> d.id !in now && d.snapshot == None
    ensures RecordsTraced(before, now[d.id := RecordFor(q, item)], done + [d])
  {
    var after, more := now[d.id := RecordFor(q, item)], done + [d];
    assert more[|done|] == d;
    forall id | id in before && after[id] != before[id]
      ensures exists k :: 0 <= k < |more| && more[k].id == id && more[k].snapshot.Some?
    {
      if id != d.id {
        StillDone(done, d, id, true);
      }
    }
    forall id | id in after && id !in before
      ensures exists k :: 0 <= k < |more| && more[k].id == id && more[k].snapshot.None?
    {
      if id != d.id {
        StillDone(done, d, id, false);
      }
    }
  }

  lemma StillDone(done: seq<Done>, d: Done, id: nat, replaced: bool)
    requires exists k :: 0 <= k < |done| && done[k].id == id && done[k].snapshot.Some? == replaced
    ensures exists k :: 0 <= k < |done + [d]| && (done + [d])[k].id == id && (done + [d])[k].snapshot.Some? == replaced
  {
    var k :| 0 <= k < |done| && done[k].id == id && done[k].snapshot.Some? == replaced;
    assert (done + [d])[k] == done[k];
  }

  lemma VisibleReplaced(before: map<Path, Content>, now: map<Path, Content>, rel: string, temp: nat, content: Content)
    requires Kept(now) == Replaced(Kept(before), rel, temp, content)
    ensures Visible(now) == Visible(before)[Installed(rel) := content]
  {
    forall r ensures Installed(r) in now <==> r == rel || Installed(r) in before
             ensures Installed(r) in now ==> now[Installed(r)] == if r == rel then content else before[Installed(r)]
    {
      assert Installed(r) in now <==> Installed(r) in Kept(now);
      assert Installed(r) in before <==> Installed(r) in Kept(before);
    }
    forall p ensures p in Visible(now) <==> p in Visible(before)[Installed(rel) := content]
             ensures p in Visible(now) ==> Visible(now)[p] == Visible(before)[Installed(rel) := content][p]
    {
      if p.Installed? {
        assert p == Installed(p.rel);
      }
    }
  }

  /** The finished items can be taken back to the state before the batch. */
  ghost predicate Undoable(files0: map<Path, Content>, records0: map<nat, Record>, files: map<Path, Content>,
                           records: map<nat, Record>, done: seq<Done>)
  {
    AllRestored(Kept(files), done) == Kept(files0) && RecordsTraced(records0, records, done)
  }

  lemma UndoableKept(files0: map<Path, Content>, records0: map<nat, Record>, files: map<Path, Content>,
                     files': map<Path, Content>, records: map<nat, Record>, done: seq<Done>)
    requires Undoable(files0, records0, files, records, done) && Kept(files') == Kept(files)
    ensures Undoable(files0, records0, files', records, done)
  {
  }

  lemma UndoableMore(q: Request, files0: map<Path, Content>, records0: map<nat, Record>, files: map<Path, Content>,
                     records: map<nat, Record>, files': map<Path, Content>, done: seq<Done>, item: Item, d: Done)
    requires Undoable(files0, records0, files, records, done)
    requires Kept(files') == Replaced(Kept(files), item.rel, item.temp, item.content)
    requires d.rel == item.rel && d.temp == item.temp && d.hadBackup == (Installed(item.rel) in files)
    requires Backup(item.temp) !in files
    requires item.existing.Some? <==> item.loaded.Some?
    requires item.existing.Some? ==> d.id == item.existing.value && d.id in records0 && records0[d.id] == item.loaded.value
                                     && d.snapshot == Some(item.loaded.value.meta)
    requires item.existing.None? ==> d.id !in records && d.snapshot == None
    ensures Undoable(files0, records0, files', records[d.id := RecordFor(q, item)], done + [d])
  {
    RestoredMore(Kept(files), Kept(files0), done, d, item.content);
    TracedMore(q, records0, records, done, item, d);
  }

  function Ids(done: seq<Done>): seq<nat> {
    seq(|done|, k requires 0 <= k < |done| => done[k].id)
  }

  /** What has been written so far is what these items ask for. */
  ghost predicate Written(q: Request, items: seq<Item>, files0: map<Path, Content>, records0: map<nat, Record>,
                          files: map<Path, Content>, records: map<nat, Record>, done: seq<Done>)
  {
    && |done| == |items|
    && (forall j :: 0 <= j < |items| && items[j].existing.Some? ==> done[j].id == items[j].existing.value)
    && (forall j :: 0 <= j < |items| ==> (items[j].existing.None? <==> done[j].snapshot.None?))
    && Visible(files) == FilesAfter(Visible(files0), items)
    && records == RecordsAfter(q, records0, items, Ids(done))
  }

  lemma WrittenNothing(q: Request, items: seq<Item>, files0: map<Path, Content>, records0: map<nat, Record>)
    ensures Written(q, items[..0], files0, records0, files0, records0, [])
    ensures Undoable(files0, records0, files0, records0, [])
  {
  }

  lemma WrittenMore(q: Request, items: seq<Item>, k: nat, files0: map<Path, Content>, records0: map<nat, Record>,
                    files: map<Path, Content>, records: map<nat, Record>, files': map<Path, Content>, done: seq<Done>, d: Done)
    requires k < |items| && Written(q, items[..k], files0, records0, files, records, done)
    requires Kept(files') == Replaced(Kept(files), items[k].rel, items[k].temp, items[k].content)
    requires items[k].existing.Some? ==> d.id == items[k].existing.value
    requires items[k].existing.None? <==> d.snapshot.None?
    ensures Written(q, items[..k + 1], files0, records0, files', records[d.id := RecordFor(q, items[k])], done + [d])
  {
    VisibleReplaced(files, files', items[k].rel, items[k].temp, items[k].content);
    assert items[..k + 1][..k] == items[..k];
    assert Ids(done + [d])[..k] == Ids(done);
  }

  /** The items from k on are still staged, and their backup names are still free. */
  ghost predicate TempsReady(items: seq<Item>, base: nat, k: nat, files: map<Path, Content>) {
    && (forall j :: 0 <= j < |items| ==> items[j].temp == base + j)
    && (forall j :: k <= j < |items| ==> Staged(items[j].temp) in files && files[Staged(items[j].temp)] == items[j].content)
    && (forall j :: k <= j < |items| ==> Backup(items[j].temp) !in files)
  }

  lemma TempsMore(items: seq<Item>, base: nat, k: nat, files: map<Path, Content>, files': map<Path, Content>)
    requires k < |items| && TempsReady(items, base, k, files) && OtherTemps(files, files', items[k].temp)
    ensures TempsReady(items, base, k + 1, files')
  {
  }

  /** What an item says about the upload and about the stores before the batch. */
  ghost predicate ItemFor(q: Request, up: Upload, item: Item, visible: map<Path, Content>, records: map<nat, Record>) {
    && q.clean(up.filename) == Some(item.filename) && item.rel == q.relPath(item.filename) && item.content == up.content
    && (item.existing.Some? <==> item.loaded.Some?)
    && (item.existing.Some? ==> item.existing.value in records && records[item.existing.value] == item.loaded.value
                                && BelongsTo(q, item.loaded.value, item.rel))
    && (item.existing.None? ==> Installed(item.rel) !in visible && forall id :: id in records ==> !BelongsTo(q, records[id], item.rel))
  }

  /** A committed batch: one item per upload, no two names alike, existing records rewritten under their own id and
      new records under unused ids; every path holds its upload's bytes and nothing else changed. */
  ghost predicate Committed(q: Request, uploads: seq<Upload>, items: seq<Item>, ids: seq<nat>,
                            visible: map<Path, Content>, records: map<nat, Record>,
                            visible': map<Path, Content>, records': map<nat, Record>)
  {
    && |items| == |uploads| == |ids|
    && (forall k :: 0 <= k < |items| ==> ItemFor(q, uploads[k], items[k], visible, records))
    && (forall i, j :: 0 <= i < j < |items| ==> q.fold(items[i].filename) != q.fold(items[j].filename))
    && (forall k :: 0 <= k < |items| && items[k].existing.Some? ==> ids[k] == items[k].existing.value)
    && (forall k :: 0 <= k < |items| && items[k].existing.None? ==> ids[k] !in records)
    && (forall i, j :: 0 <= i < j < |items| && items[i].existing.None? && items[j].existing.None? ==> ids[i] != ids[j])
    && visible' == FilesAfter(visible, items)
    && records' == RecordsAfter(q, records, items, ids)
  }

  // ----- What a committed batch means row by row and file by file -----

  /** The last item written to a path decides what is there. */
  lemma {:induction false} LastToPath(visible: map<Path, Content>, items: seq<Item>, p: Path) returns (k: nat)
    ensures k <= |items| && forall j :: k < j < |items| ==> Installed(items[j].rel) != p
    ensures k < |items| ==> Installed(items[k].rel) == p && p in FilesAfter(visible, items)
                            && FilesAfter(visible, items)[p] == items[k].content
    ensures k == |items| ==> (forall j :: 0 <= j < |items| ==> Installed(items[j].rel) != p)
                             && (p in FilesAfter(visible, items) <==> p in visible)
                             && (p in visible ==> FilesAfter(visible, items)[p] == visible[p])
  {
    if items == [] {
      return 0;
    }
    var n := |items| - 1;
    if Installed(items[n].rel) == p {
      return n;
    }
    k := LastToPath(visible, items[..n], p);
    assert forall j :: 0 <= j < n ==> items[..n][j] == items[j];
    if k == n {
      k := |items|;
    }
  }

  /** The last item written under a record id decides the record. */
  lemma {:induction false} LastToRecord(q: Request, records: map<nat, Record>, items: seq<Item>, ids: seq<nat>, id: nat)
      returns (k: nat)
    requires |ids| == |items|
    ensures k <= |items| && forall j :: k < j < |items| ==> ids[j] != id
    ensures k < |items| ==> ids[k] == id && id in RecordsAfter(q, records, items, ids)
                            && RecordsAfter(q, records, items, ids)[id] == RecordFor(q, items[k])
    ensures k == |items| ==> (forall j :: 0 <= j < |items| ==> ids[j] != id)
                             && (id in RecordsAfter(q, records, items, ids) <==> id in records)
                             && (id in records ==> RecordsAfter(q, records, items, ids)[id] == records[id])
  {
    if items == [] {
      return 0;
    }
    var n := |items| - 1;
    if ids[n] == id {
      return n;
    }
    k := LastToRecord(q, records, items[..n], ids[..n], id);
    assert forall j :: 0 <= j < n ==> items[..n][j] == items[j] && ids[..n][j] == ids[j];
    if k == n {
      k := |items|;
    }
  }

  /** The row that an upload leaves under an id, given the rows before the call. */
  ghost predicate RowSays(q: Request, up: Upload, before: map<nat, Record>, id: nat, r: Record) {
    && q.clean(up.filename).Some? && r.meta.originalName == q.clean(up.filename).value
    && r.rel == q.relPath(r.meta.originalName) && r.meta.mime == q.mime(r.meta.originalName)
    && r.meta.size == |up.content| && r.meta.digest == q.digest(up.content)
    && r.meta.uploadedAt == q.now && r.meta.source == "upload"
    && (q.uploadedBy != "" ==> r.meta.uploadedBy == q.uploadedBy)
    && (q.uploadedBy == "" ==> r.meta.uploadedBy == if id in before then before[id].meta.uploadedBy else "")
    && (if id in before then r.pn == before[id].pn && r.rev == before[id].rev && r.rel == before[id].rel
        else r.pn == q.pn && r.rev == q.rev)
  }

  /** The upload updates a stored row exactly when one of this part and path is stored, in any letter case of the part. */
  ghost predicate RowChosen(q: Request, up: Upload, before: map<nat, Record>, id: nat) {
    var rel := q.relPath(q.clean(up.filename).GetOr(""));
    && (id in before ==> q.fold(before[id].pn) == q.fold(q.pn) && q.fold(before[id].rev) == q.fold(q.rev) && before[id].rel == rel)
    && (id !in before ==> forall x :: x in before ==>
          !(q.fold(before[x].pn) == q.fold(q.pn) && q.fold(before[x].rev) == q.fold(q.rev) && before[x].rel == rel))
  }

  /** After the batch every row is the one its last upload leaves, or as before; and so is every file. */
  ghost predicate BatchSays(q: Request, uploads: seq<Upload>, ids: seq<nat>, visible: map<Path, Content>,
                            records: map<nat, Record>, visible': map<Path, Content>, records': map<nat, Record>)
  {
    && |ids| == |uploads| && (forall k :: 0 <= k < |ids| ==> RowChosen(q, uploads[k], records, ids[k]))
    && (forall id :: id in records' <==> id in records || id in ids)
    && (forall id :: id in records && id !in ids ==> records'[id] == records[id])
    && (forall k :: 0 <= k < |ids| && (forall j :: k < j < |ids| ==> ids[j] != ids[k]) ==>
          RowSays(q, uploads[k], records, ids[k], records'[ids[k]]))
    && (forall p :: p in visible' <==> p in visible || exists k :: 0 <= k < |uploads| && PathOf(q, uploads[k]) == p)
    && (forall p :: p in visible && (forall k :: 0 <= k < |uploads| ==> PathOf(q, uploads[k]) != p) ==> visible'[p] == visible[p])
    && (forall k :: 0 <= k < |uploads| && (forall j :: k < j < |uploads| ==> PathOf(q, uploads[j]) != PathOf(q, uploads[k])) ==>
          visible'[PathOf(q, uploads[k])] == uploads[k].content)
  }

  ghost function PathOf(q: Request, up: Upload): Path {
    Installed(q.relPath(q.clean(up.filename).GetOr("")))
  }

  lemma CommittedRow(q: Request, up: Upload, item: Item, visible: map<Path, Content>, records: map<nat, Record>, id: nat)
    requires ItemFor(q, up, item, visible, records)
    requires item.existing.Some? ==> id == item.existing.value
    requires item.existing.None? ==> id !in records
    ensures RowSays(q, up, records, id, RecordFor(q, item)) && RowChosen(q, up, records, id) && PathOf(q, up) == Installed(item.rel)
  {
  }

  lemma CommittedRows(q: Request, uploads: seq<Upload>, items: seq<Item>, ids: seq<nat>, visible: map<Path, Content>,
                      records: map<nat, Record>, visible': map<Path, Content>, records': map<nat, Record>, k: nat)
    requires Committed(q, uploads, items, ids, visible, records, visible', records') && k < |ids|
    ensures RowChosen(q, uploads[k], records, ids[k]) && PathOf(q, uploads[k]) == Installed(items[k].rel)
    ensures ids[k] in records'
    ensures (forall j :: k < j < |ids| ==> ids[j] != ids[k]) ==>
              RowSays(q, uploads[k], records, ids[k], records'[ids[k]])
  {
    CommittedRow(q, uploads[k], items[k], visible, records, ids[k]);
    var last := LastToRecord(q, records, items, ids, ids[k]);
  }

  lemma CommittedFile(q: Request, uploads: seq<Upload>, items: seq<Item>, ids: seq<nat>, visible: map<Path, Content>,
                      records: map<nat, Record>, visible': map<Path, Content>, records': map<nat, Record>, p: Path)
    requires Committed(q, uploads, items, ids, visible, records, visible', records')
    requires forall k :: 0 <= k < |uploads| ==> PathOf(q, uploads[k]) == Installed(items[k].rel)
    ensures p in visible' <==> p in visible || exists k :: 0 <= k < |uploads| && PathOf(q, uploads[k]) == p
    ensures p in visible && (forall k :: 0 <= k < |uploads| ==> PathOf(q, uploads[k]) != p) ==> visible'[p] == visible[p]
    ensures forall k :: (0 <= k < |uploads| && PathOf(q, uploads[k]) == p
                         && forall j :: k < j < |uploads| ==> PathOf(q, uploads[j]) != p)
                        ==> p in visible' && visible'[p] == uploads[k].content
  {
    var last := LastToPath(visible, items, p);
    if last < |items| {
      assert PathOf(q, uploads[last]) == p;
      assert ItemFor(q, uploads[last], items[last], visible, records);
    }
  }

  lemma CommittedSays(q: Request, uploads: seq<Upload>, items: seq<Item>, ids: seq<nat>, visible: map<Path, Content>,
                      records: map<nat, Record>, visible': map<Path, Content>, records': map<nat, Record>)
    requires Committed(q, uploads, items, ids, visible, records, visible', records')
    ensures BatchSays(q, uploads, ids, visible, records, visible', records')
  {
    forall k | 0 <= k < |ids|
      ensures RowChosen(q, uploads[k], records, ids[k]) && PathOf(q, uploads[k]) == Installed(items[k].rel) && ids[k] in records'
      ensures (forall j :: k < j < |ids| ==> ids[j] != ids[k]) ==>
                RowSays(q, uploads[k], records, ids[k], records'[ids[k]])
    {
      CommittedRows(q, uploads, items, ids, visible, records, visible', records', k);
    }
    forall id ensures id in records' <==> id in records || id in ids
              ensures id in records && id !in ids ==> records'[id] == records[id]
    {
      var last := LastToRecord(q, records, items, ids, id);
    }
    forall p
      ensures p in visible' <==> p in visible || exists k :: 0 <= k < |uploads| && PathOf(q, uploads[k]) == p
      ensures p in visible && (forall k :: 0 <= k < |uploads| ==> PathOf(q, uploads[k]) != p) ==> visible'[p] == visible[p]
    {
      CommittedFile(q, uploads, items, ids, visible, records, visible', records', p);
    }
    forall k | 0 <= k < |uploads| && (forall j :: k < j < |uploads| ==> PathOf(q, uploads[j]) != PathOf(q, uploads[k]))
      ensures PathOf(q, uploads[k]) in visible' && visible'[PathOf(q, uploads[k])] == uploads[k].content
    {
      CommittedFile(q, uploads, items, ids, visible, records, visible', records', PathOf(q, uploads[k]));
    }
  }

  lemma RestoredKept(files: map<Path, Content>, d: Done)
    ensures var cleared := files - {Installed(d.rel)};
            Kept(if d.hadBackup && Backup(d.temp) in cleared then Moved(cleared, Backup(d.temp), Installed(d.rel)) else cleared)
            == Restored(Kept(files), d)
  {
    KeptUnlink(files, d.rel);
    var cleared := files - {Installed(d.rel)};
    if d.hadBackup && Backup(d.temp) in cleared {
      KeptMoveBack(cleared, d.rel, d.temp);
      assert Kept(cleared)[Backup(d.temp)] == cleared[Backup(d.temp)];
    }
  }

  lemma QuarantineKeeps(before: map<Path, Content>, now: map<Path, Content>, path: Path, quarantine: Path)
    requires path.Installed? && quarantine.Quarantined? && quarantine !in before
    requires now == if path in before then Moved(before, path, quarantine) else before
    ensures Visible(now) == Visible(before) - {path}
    ensures path in before ==> Visible(Moved(now, quarantine, path)) == Visible(before)
    ensures path !in before ==> Visible(now) == Visible(before)
    ensures Visible(now - {quarantine}) == Visible(now)
  {
  }

  lemma WrittenIsCommitted(q: Request, uploads: seq<Upload>, items: seq<Item>, files0: map<Path, Content>,
                           records0: map<nat, Record>, files: map<Path, Content>, records: map<nat, Record>, done: seq<Done>)
    requires |items| == |uploads|
    requires forall k :: 0 <= k < |items| ==> StagedAt(q, uploads[k], items[k], files0, records0)
    requires forall i, j :: 0 <= i < j < |items| ==> q.fold(items[i].filename) != q.fold(items[j].filename)
    requires Written(q, items, files0, records0, files, records, done) && RecordsTraced(records0, records, done)
    ensures Committed(q, uploads, items, Ids(done), Visible(files0), records0, Visible(files), records)
  {
    forall k | 0 <= k < |items| ensures ItemFor(q, uploads[k], items[k], Visible(files0), records0) {
      assert StagedAt(q, uploads[k], items[k], files0, records0);
      assert Installed(items[k].rel) in Visible(files0) <==> Installed(items[k].rel) in files0;
    }
  }

  /** One item installed: its bytes in place of what was there, which is moved aside, and its record written, under
      its own id or an unused one. */
  ghost predicate InstalledOne(q: Request, item: Item, files: map<Path, Content>, records: map<nat, Record>,
                               files': map<Path, Content>, records': map<nat, Record>, d: Done)
  {
    && Kept(files') == Replaced(Kept(files), item.rel, item.temp, item.content) && OtherTemps(files, files', item.temp)
    && d.rel == item.rel && d.temp == item.temp && d.hadBackup == (Installed(item.rel) in files)
    && records' == records[d.id := RecordFor(q, item)]
    && (item.existing.Some? ==> d.id == item.existing.value && item.loaded.Some? && d.snapshot == Some(item.loaded.value.meta))
    && (item.existing.None? ==> d.id !in records && d.snapshot == None)
  }

  /** How far an installation has come: the first items are written and can be undone, their backups are in place,
      the other items are still staged. */
  ghost predicate Progress(q: Request, uploads: seq<Upload>, items: seq<Item>, base: nat, files0: map<Path, Content>,
                           records0: map<nat, Record>, files: map<Path, Content>, records: map<nat, Record>, done: seq<Done>)
    requires |done| <= |items| == |uploads|
  {
    && Undoable(files0, records0, files, records, done)
    && Written(q, items[..|done|], files0, records0, files, records, done)
    && TempsReady(items, base, |done|, files)
    && BackupsThere(done, base, 0, files) && Asides(done) == Replacements(q, uploads, Visible(files0), |done|)
  }

  /** The finished items from one on still have their backups. */
  ghost predicate BackupsThere(done: seq<Done>, base: nat, from: nat, files: map<Path, Content>) {
    && (forall j :: 0 <= j < |done| ==> done[j].temp == base + j)
    && (forall j :: from <= j < |done| && done[j].hadBackup ==> Backup(done[j].temp) in files)
  }

  /** Unless the last step was made to fail, only temporary files numbered below are left. */
  ghost predicate CleanedUp(faults: nat -> bool, step: nat, files: map<Path, Content>, base: nat) {
    step > 0 && (!faults(step - 1) ==> forall p :: p in files && !p.Installed? ==> p.temp < base)
  }

  lemma DropOne(done: seq<Done>, base: nat, i: nat, files: map<Path, Content>)
    requires i < |done| && BackupsThere(done, base, i, files)
    ensures BackupsThere(done, base, i + 1, files) && BackupsThere(done, base, i + 1, files - {Backup(done[i].temp)})
    ensures Visible(files - {Backup(done[i].temp)}) == Visible(files)
    ensures Asides(done[..i + 1]) == Asides(done[..i]) + (if done[i].hadBackup then 1 else 0) <= Asides(done)
  {
    assert done[..i + 1] == done[..i] + [done[i]];
    AsidesMore(done[..i], done[i]);
    AsidesGrow(done, i + 1);
  }

  /** How many finished items moved a file aside. */
  function Asides(done: seq<Done>): nat {
    if done == [] then 0 else Asides(done[..|done| - 1]) + if done[|done| - 1].hadBackup then 1 else 0
  }

  lemma {:induction false} AsidesGrow(done: seq<Done>, i: nat)
    requires i <= |done|
    ensures Asides(done[..i]) <= Asides(done)
  {
    if i < |done| {
      AsidesGrow(done[..|done| - 1], i);
      assert done[..|done| - 1][..i] == done[..i];
    } else {
      assert done[..i] == done;
    }
  }

  lemma AsidesMore(done: seq<Done>, d: Done)
    ensures Asides(done + [d]) == Asides(done) + if d.hadBackup then 1 else 0
  {
    assert (done + [d])[..|done|] == done;
  }

  lemma {:induction false} ReplacementsGrow(q: Request, uploads: seq<Upload>, visible: map<Path, Content>, m: nat, n: nat)
    requires m <= n <= |uploads|
    ensures Replacements(q, uploads, visible, m) <= Replacements(q, uploads, visible, n)
  {
    if m < n {
      ReplacementsGrow(q, uploads, visible, m, n - 1);
    }
  }

  lemma BackupsMore(done: seq<Done>, base: nat, files: map<Path, Content>, files': map<Path, Content>, item: Item, d: Done)
    requires BackupsThere(done, base, 0, files) && d.temp == item.temp == base + |done|
    requires Kept(files') == Replaced(Kept(files), item.rel, item.temp, item.content)
    requires d.hadBackup == (Installed(item.rel) in files)
    ensures BackupsThere(done + [d], base, 0, files')
  {
    assert forall t :: Backup(t) in files ==> Backup(t) in Kept(files);
    assert forall t :: Backup(t) in Kept(files') ==> Backup(t) in files';
    assert d.hadBackup ==> Installed(item.rel) in Kept(files);
  }

  lemma WrittenNext(q: Request, items: seq<Item>, k: nat, files0: map<Path, Content>, records0: map<nat, Record>,
                    files: map<Path, Content>, records: map<nat, Record>, done: seq<Done>,
                    files': map<Path, Content>, records': map<nat, Record>, d: Done)
    requires k < |items| && Written(q, items[..k], files0, records0, files, records, done)
    requires InstalledOne(q, items[k], files, records, files', records', d)
    ensures Written(q, items[..k + 1], files0, records0, files', records', done + [d])
  {
    WrittenMore(q, items, k, files0, records0, files, records, files', done, d);
  }

  lemma UndoableNext(q: Request, up: Upload, items: seq<Item>, base: nat, files0: map<Path, Content>, records0: map<nat, Record>,
                     files: map<Path, Content>, records: map<nat, Record>, done: seq<Done>,
                     files': map<Path, Content>, records': map<nat, Record>, d: Done)
    requires Undoable(files0, records0, files, records, done)
    requires |done| < |items| && TempsReady(items, base, |done|, files) && StagedAt(q, up, items[|done|], files0, records0)
    requires InstalledOne(q, items[|done|], files, records, files', records', d)
    ensures Undoable(files0, records0, files', records', done + [d])
  {
    UndoableMore(q, files0, records0, files, records, files', done, items[|done|], d);
  }

  lemma BackupsNext(items: seq<Item>, base: nat, done: seq<Done>, files: map<Path, Content>, files': map<Path, Content>,
                    q: Request, records: map<nat, Record>, records': map<nat, Record>, d: Done)
    requires |done| < |items| && TempsReady(items, base, |done|, files) && BackupsThere(done, base, 0, files)
    requires InstalledOne(q, items[|done|], files, records, files', records', d)
    ensures TempsReady(items, base, |done| + 1, files') && BackupsThere(done + [d], base, 0, files')
  {
    TempsMore(items, base, |done|, files, files');
    BackupsMore(done, base, files, files', items[|done|], d);
  }

  lemma ProgressMore(q: Request, uploads: seq<Upload>, items: seq<Item>, base: nat, files0: map<Path, Content>,
                     records0: map<nat, Record>, files: map<Path, Content>, records: map<nat, Record>, done: seq<Done>,
                     files': map<Path, Content>, records': map<nat, Record>, d: Done)
    requires |done| < |items| == |uploads| && Progress(q, uploads, items, base, files0, records0, files, records, done)
    requires StagedAt(q, uploads[|done|], items[|done|], files0, records0)
    requires Installed(items[|done|].rel) in files <==> Replaces(q, uploads, Visible(files0), |done|)
    requires InstalledOne(q, items[|done|], files, records, files', records', d)
    ensures Progress(q, uploads, items, base, files0, records0, files', records', done + [d])
  {
    WrittenNext(q, items, |done|, files0, records0, files, records, done, files', records', d);
    UndoableNext(q, uploads[|done|], items, base, files0, records0, files, records, done, files', records', d);
    BackupsNext(items, base, done, files, files', q, records, records', d);
    AsidesMore(done, d);
  }

  // ----- What decides how a call ends -----

  /** No step from one number up to another is made to fail. */
  ghost predicate Clear(faults: nat -> bool, from: nat, to: nat) {
    forall t :: from <= t < to ==> !faults(t)
  }

  lemma ClearJoin(faults: nat -> bool, from: nat, mid: nat, to: nat)
    requires from <= mid <= to
    ensures Clear(faults, from, to) <==> Clear(faults, from, mid) && Clear(faults, mid, to)
  {
  }

  function CleanName(q: Request, up: Upload): string {
    q.clean(up.filename).GetOr("")
  }

  function RelOf(q: Request, up: Upload): string {
    q.relPath(CleanName(q, up))
  }

  /** Taken by itself the upload can be staged: its name is allowed, its path resolves and is free or belongs to a
      record of this part, and it is not too large. */
  ghost predicate Admissible(q: Request, up: Upload, visible: map<Path, Content>, records: map<nat, Record>) {
    && q.clean(up.filename).Some? && q.resolves(RelOf(q, up))
    && (Installed(RelOf(q, up)) in visible ==> exists id :: id in records && BelongsTo(q, records[id], RelOf(q, up)))
    && (q.maxBytes > 0 ==> |up.content| <= q.maxBytes)
  }

  /** The batch can be staged: every upload can, and no two names are alike. */
  ghost predicate Acceptable(q: Request, uploads: seq<Upload>, visible: map<Path, Content>, records: map<nat, Record>) {
    && (forall k :: 0 <= k < |uploads| ==> Admissible(q, uploads[k], visible, records))
    && (forall i, j :: 0 <= i < j < |uploads| ==> q.fold(CleanName(q, uploads[i])) != q.fold(CleanName(q, uploads[j])))
  }

  function FoldedNames(q: Request, uploads: seq<Upload>, k: nat): set<string>
    requires k <= |uploads|
  {
    if k == 0 then {} else FoldedNames(q, uploads, k - 1) + {q.fold(CleanName(q, uploads[k - 1]))}
  }

  lemma {:induction false} FoldedMember(q: Request, uploads: seq<Upload>, k: nat, n: string)
    requires k <= |uploads|
    ensures n in FoldedNames(q, uploads, k) <==> exists i :: 0 <= i < k && q.fold(CleanName(q, uploads[i])) == n
  {
    if k > 0 {
      FoldedMember(q, uploads, k - 1, n);
    }
  }

  lemma AcceptableMore(q: Request, uploads: seq<Upload>, k: nat, visible: map<Path, Content>, records: map<nat, Record>)
    requires k < |uploads| && Acceptable(q, uploads[..k], visible, records) && Admissible(q, uploads[k], visible, records)
    requires q.fold(CleanName(q, uploads[k])) !in FoldedNames(q, uploads, k)
    ensures Acceptable(q, uploads[..k + 1], visible, records)
  {
    var front, more := uploads[..k], uploads[..k + 1];
    forall j | 0 <= j < k + 1 ensures Admissible(q, more[j], visible, records) {
      assert j < k ==> more[j] == front[j];
    }
    forall i, j | 0 <= i < j < k + 1 ensures q.fold(CleanName(q, more[i])) != q.fold(CleanName(q, more[j])) {
      if j < k {
        assert more[i] == front[i] && more[j] == front[j];
      } else {
        FoldedMember(q, uploads, k, q.fold(CleanName(q, uploads[k])));
      }
    }
  }

  lemma StagingFails(faults: nat -> bool, from: nat, q: Request, uploads: seq<Upload>, k: nat, visible: map<Path, Content>,
                     records: map<nat, Record>)
    requires k < |uploads|
    requires !Admissible(q, uploads[k], visible, records) || faults(from + k)
             || q.fold(CleanName(q, uploads[k])) in FoldedNames(q, uploads, k)
    ensures !(Acceptable(q, uploads, visible, records) && Clear(faults, from, from + |uploads|))
  {
    FoldedMember(q, uploads, k, q.fold(CleanName(q, uploads[k])));
  }

  lemma StagedNames(q: Request, uploads: seq<Upload>, items: seq<Item>, base: nat, files: map<Path, Content>,
                    records: map<nat, Record>)
    requires StagedItems(q, uploads, items, base, files, records)
    ensures forall k :: 0 <= k < |items| ==> items[k].filename == CleanName(q, uploads[k]) && items[k].rel == RelOf(q, uploads[k])
  {
    forall k | 0 <= k < |items| ensures items[k].filename == CleanName(q, uploads[k]) && items[k].rel == RelOf(q, uploads[k]) {
      assert StagedAt(q, uploads[k], items[k], files, records);
    }
  }

  /** Upload k finds a file at its path when its turn comes. */
  predicate Replaces(q: Request, uploads: seq<Upload>, visible: map<Path, Content>, k: nat)
    requires k < |uploads|
  {
    Installed(RelOf(q, uploads[k])) in visible || exists j :: 0 <= j < k && RelOf(q, uploads[j]) == RelOf(q, uploads[k])
  }

  /** How many of the first n uploads replace a file. */
  function Replacements(q: Request, uploads: seq<Upload>, visible: map<Path, Content>, n: nat): nat
    requires n <= |uploads|
  {
    if n == 0 then 0 else Replacements(q, uploads, visible, n - 1) + if Replaces(q, uploads, visible, n - 1) then 1 else 0
  }

  /** The number of the step after the installation of k uploads: two steps each, and one more for a file replaced. */
  function Due(q: Request, uploads: seq<Upload>, visible: map<Path, Content>, from: nat, k: nat): nat
    requires k <= |uploads|
  {
    from + 2 * k + Replacements(q, uploads, visible, k)
  }

  /** The numbers of the step after installing, when staging takes a step an upload, and after dropping backups. */
  function InstalledBy(q: Request, uploads: seq<Upload>, visible: map<Path, Content>, from: nat): nat {
    Due(q, uploads, visible, from + |uploads|, |uploads|)
  }

  function DroppedBy(q: Request, uploads: seq<Upload>, visible: map<Path, Content>, from: nat): nat {
    InstalledBy(q, uploads, visible, from) + Replacements(q, uploads, visible, |uploads|)
  }

  /** The batch can be staged and no step up to the last record saved is made to fail. */
  ghost predicate GetsInstalled(faults: nat -> bool, q: Request, uploads: seq<Upload>, visible: map<Path, Content>,
                                records: map<nat, Record>, from: nat)
  {
    Acceptable(q, uploads, visible, records) && Clear(faults, from, InstalledBy(q, uploads, visible, from))
  }

  /** Neither is one that drops a backup. */
  ghost predicate GetsThrough(faults: nat -> bool, q: Request, uploads: seq<Upload>, visible: map<Path, Content>,
                              records: map<nat, Record>, from: nat)
  {
    Acceptable(q, uploads, visible, records) && Clear(faults, from, DroppedBy(q, uploads, visible, from))
  }

  lemma PhasesDecide(faults: nat -> bool, q: Request, uploads: seq<Upload>, visible: map<Path, Content>,
                     records: map<nat, Record>, from: nat, staged: bool, installed: bool, dropped: bool)
    requires staged <==> Acceptable(q, uploads, visible, records) && Clear(faults, from, from + |uploads|)
    requires installed <==> staged && Clear(faults, from + |uploads|, InstalledBy(q, uploads, visible, from))
    requires dropped <==> installed && Clear(faults, InstalledBy(q, uploads, visible, from), DroppedBy(q, uploads, visible, from))
    ensures installed <==> GetsInstalled(faults, q, uploads, visible, records, from)
    ensures dropped <==> GetsThrough(faults, q, uploads, visible, records, from)
  {
    ClearJoin(faults, from, from + |uploads|, InstalledBy(q, uploads, visible, from));
    ClearJoin(faults, from, InstalledBy(q, uploads, visible, from), DroppedBy(q, uploads, visible, from));
  }

  lemma DueNext(faults: nat -> bool, q: Request, uploads: seq<Upload>, visible: map<Path, Content>, from: nat, s: nat, k: nat)
    requires k < |uploads| && s == Due(q, uploads, visible, from, k) && Clear(faults, from, s)
    ensures var next := s + if Replaces(q, uploads, visible, k) then 3 else 2;
            && next == Due(q, uploads, visible, from, k + 1)
            && (Clear(faults, s, next) ==> Clear(faults, from, next))
            && (!Clear(faults, s, next) ==> !Clear(faults, from, Due(q, uploads, visible, from, |uploads|)))
  {
    ReplacementsGrow(q, uploads, visible, k + 1, |uploads|);
  }

  lemma {:induction false} FilesAfterKeys(visible: map<Path, Content>, items: seq<Item>, p: Path)
    ensures p in FilesAfter(visible, items) <==> p in visible || exists k :: 0 <= k < |items| && Installed(items[k].rel) == p
  {
    if items != [] {
      var n := |items| - 1;
      FilesAfterKeys(visible, items[..n], p);
      assert forall k :: 0 <= k < n ==> items[..n][k] == items[k];
    }
  }

  /** Whether an item finds a file at its path is what the batch and the files before it say. */
  lemma ItemReplaces(q: Request, uploads: seq<Upload>, items: seq<Item>, k: nat, visible: map<Path, Content>, files: map<Path, Content>)
    requires k < |items| == |uploads| && forall j :: 0 <= j < |items| ==> items[j].rel == RelOf(q, uploads[j])
    requires Visible(files) == FilesAfter(visible, items[..k])
    ensures Installed(items[k].rel) in files <==> Replaces(q, uploads, visible, k)
  {
    var p := Installed(items[k].rel);
    assert p in files <==> p in Visible(files);
    FilesAfterKeys(visible, items[..k], p);
    assert forall j :: 0 <= j < k ==> items[..k][j] == items[j];
  }

  lemma ProgressStart(q: Request, uploads: seq<Upload>, items: seq<Item>, base: nat, files0: map<Path, Content>,
                      records0: map<nat, Record>)
    requires StagedItems(q, uploads, items, base, files0, records0) && |items| == |uploads|
    requires forall t: nat :: Backup(t) in files0 ==> t < base
    ensures Progress(q, uploads, items, base, files0, records0, files0, records0, [])
  {
    WrittenNothing(q, items, files0, records0);
    forall j | 0 <= j < |items| ensures Staged(items[j].temp) in files0 && files0[Staged(items[j].temp)] == items[j].content {
      assert StagedAt(q, uploads[j], items[j], files0, records0);
    }
  }

  lemma ProgressIsCommitted(q: Request, uploads: seq<Upload>, items: seq<Item>, base: nat, files0: map<Path, Content>,
                            records0: map<nat, Record>, files: map<Path, Content>, records: map<nat, Record>, done: seq<Done>)
    requires |done| == |items| == |uploads| && StagedItems(q, uploads, items, base, files0, records0)
    requires forall i, j :: 0 <= i < j < |items| ==> q.fold(items[i].filename) != q.fold(items[j].filename)
    requires Progress(q, uploads, items, base, files0, records0, files, records, done)
    ensures Committed(q, uploads, items, Ids(done), Visible(files0), records0, Visible(files), records)
    ensures BackupsThere(done, base, 0, files) && Asides(done) == Replacements(q, uploads, Visible(files0), |uploads|)
  {
    assert items[..|done|] == items;
    WrittenIsCommitted(q, uploads, items, files0, records0, files, records, done);
  }

  /** The first uploads are staged and acceptable, their folded names are collected, and nothing else has changed. */
  ghost predicate StagedSoFar(q: Request, uploads: seq<Upload>, items: seq<Item>, base: nat, names: set<string>,
                              visible: map<Path, Content>, files: map<Path, Content>, records: map<nat, Record>)
  {
    && StagedItems(q, uploads, items, base, files, records) && Visible(files) == visible
    && Acceptable(q, uploads[..|items|], visible, records) && names == FoldedNames(q, uploads, |items|)
  }

  lemma AllStaged(q: Request, uploads: seq<Upload>, items: seq<Item>, base: nat, names: set<string>,
                  visible: map<Path, Content>, files: map<Path, Content>, records: map<nat, Record>)
    requires StagedSoFar(q, uploads, items, base, names, visible, files, records) && |items| == |uploads|
    ensures Acceptable(q, uploads, visible, records)
    ensures forall i, j :: 0 <= i < j < |items| ==> q.fold(items[i].filename) != q.fold(items[j].filename)
  {
    assert uploads[..|items|] == uploads;
    StagedNames(q, uploads, items, base, files, records);
  }

  lemma StagedSoFarMore(q: Request, uploads: seq<Upload>, items: seq<Item>, base: nat, names: set<string>,
                        visible: map<Path, Content>, files: map<Path, Content>, records: map<nat, Record>, item: Item)
    requires StagedSoFar(q, uploads, items, base, names, visible, files, records) && |items| < |uploads|
    requires item.temp == base + |items| && q.fold(item.filename) !in names
    requires Admissible(q, uploads[|items|], visible, records)
    requires StagedAt(q, uploads[|items|], item, files[Staged(item.temp) := item.content], records)
    ensures StagedSoFar(q, uploads, items + [item], base, names + {q.fold(item.filename)}, visible,
                        files[Staged(item.temp) := item.content], records)
  {
    StagedMore(q, uploads, items, base, files, records, item);
    NamesMore(q, uploads, |items|, names, visible, records, item.filename);
    assert |items + [item]| == |items| + 1;
  }

  lemma NamesMore(q: Request, uploads: seq<Upload>, k: nat, names: set<string>, visible: map<Path, Content>,
                  records: map<nat, Record>, filename: string)
    requires k < |uploads| && Acceptable(q, uploads[..k], visible, records) && Admissible(q, uploads[k], visible, records)
    requires names == FoldedNames(q, uploads, k) && filename == CleanName(q, uploads[k]) && q.fold(filename) !in names
    ensures Acceptable(q, uploads[..k + 1], visible, records)
    ensures names + {q.fold(filename)} == FoldedNames(q, uploads, k + 1)
  {
    AcceptableMore(q, uploads, k, visible, records);
  }

  // ----- The two stores -----

  class Depot {
    const faults: nat -> bool
    var step: nat
    var files: map<Path, Content>
    var records: map<nat, Record>
    var nextTemp: nat
    var nextId: nat

    /** Temporary names and record ids not handed out yet are unused. */
    ghost predicate Valid()
      reads this
    {
      && (forall p :: p in files && !p.Installed? ==> p.temp < nextTemp)
      && (forall id :: id in records ==> id < nextId)
    }

    /** One step that the fault plan may make fail. */
    method Try() returns (ok: bool)
      modifies this`step
      ensures ok == !faults(old(step)) && step == old(step) + 1
    {
      ok := !faults(step);
      step := step + 1;
    }

    method TryMove(src: Path, dst: Path) returns (ok: bool)
      requires src in files
      modifies this`step, this`files
      ensures ok == !faults(old(step)) && step == old(step) + 1
      ensures files == if ok then Moved(old(files), src, dst) else old(files)
    {
      ok := Try();
      if ok {
        files := Moved(files, src, dst);
      }
    }

    /** Save an item's record: a new row, or the fields of the row it was read from. */
    method TrySave(q: Request, item: Item) returns (ok: bool, id: nat)
      requires Valid() && (item.existing.Some? <==> item.loaded.Some?)
      modifies this`step, this`records, this`nextId
      ensures ok == !faults(old(step)) && step == old(step) + 1
      ensures Valid() && nextId >= old(nextId)
      ensures records == if ok then old(records)[id := RecordFor(q, item)] else old(records)
      ensures ok && item.existing.None? ==> id == old(nextId)
      ensures ok && item.existing.Some? ==> id == item.existing.value
    {
      ok := Try();
      id := item.existing.GetOr(nextId);
      if ok {
        records := records[id := RecordFor(q, item)];
        nextId := if id < nextId then nextId else id + 1;
      }
    }

    // ----- Staging -----

    /** Validate and stage one upload, given the folded names used so far. */
    method StageOne(q: Request, up: Upload, names: set<string>) returns (r: Option<Item>)
      requires Valid()
      modifies this`step, this`files, this`nextTemp
      ensures Valid() && nextTemp >= old(nextTemp)
      ensures r.Some? <==> Admissible(q, up, Visible(old(files)), records) && q.fold(CleanName(q, up)) !in names
                           && !faults(old(step))
      ensures r.Some? ==> step == old(step) + 1
      ensures r.None? ==> Kept(files) == Kept(old(files))
      ensures r.Some? ==> nextTemp == old(nextTemp) + 1 && r.value.temp == old(nextTemp)
                          && files == old(files)[Staged(r.value.temp) := r.value.content]
                          && StagedAt(q, up, r.value, files, records) && q.fold(r.value.filename) !in names
    {
      var cleaned := q.clean(up.filename);
      if cleaned.None? || q.fold(cleaned.value) in names {
        return None;
      }
      var rel := q.relPath(cleaned.value);
      var existing, loaded := None, None;
      if exists id :: id in records && BelongsTo(q, records[id], rel) {
        var id :| id in records && BelongsTo(q, records[id], rel);
        existing, loaded := Some(id), Some(records[id]);
      }
      if !q.resolves(rel) || (Installed(rel) in files && existing.None?) {
        return None;
      }
      var saved := Try();
      if !saved {
        return None;
      }
      var item := Item(cleaned.value, rel, existing, loaded, nextTemp, up.content);
      files, nextTemp := files[Staged(nextTemp) := up.content], nextTemp + 1;
      assert Kept(files) == Kept(old(files));
      if q.maxBytes > 0 && |up.content| > q.maxBytes {
        return None;
      }
      r := Some(item);
    }

    /** Validate and stage the uploads one by one, a step each. No installed file changes, whatever fails. */
    method Stage(q: Request, uploads: seq<Upload>) returns (ok: bool, items: seq<Item>)
      requires Valid()
      modifies this`step, this`files, this`nextTemp
      ensures Valid() && Visible(files) == Visible(old(files)) && forall t: nat :: Backup(t) in files ==> t < old(nextTemp)
      ensures ok <==> Acceptable(q, uploads, Visible(old(files)), records) && Clear(faults, old(step), old(step) + |uploads|)
      ensures ok ==> step == old(step) + |uploads|
      ensures ok ==> StagedItems(q, uploads, items, old(nextTemp), files, records) && |items| == |uploads|
      ensures ok ==> nextTemp == old(nextTemp) + |items|
      ensures ok ==> forall i, j :: 0 <= i < j < |items| ==> q.fold(items[i].filename) != q.fold(items[j].filename)
    {
      items := [];
      var names: set<string> := {};
      for k := 0 to |uploads|
        invariant Valid() && |items| == k && nextTemp == old(nextTemp) + k
        invariant step == old(step) + k && Clear(faults, old(step), step)
        invariant StagedSoFar(q, uploads, items, old(nextTemp), names, Visible(old(files)), files, records)
        invariant forall t: nat :: Backup(t) in files ==> t < old(nextTemp)
      {
        var staged := StageNext(q, uploads, items, names, old(nextTemp), Visible(old(files)));
        if staged.None? {
          StagingFails(faults, old(step), q, uploads, k, Visible(old(files)), records);
          return false, items;
        }
        items := items + [staged.value];
        names := names + {q.fold(staged.value.filename)};
      }
      ok := true;
      AllStaged(q, uploads, items, old(nextTemp), names, Visible(old(files)), files, records);
    }

    /** Stage the next upload. */
    method StageNext(q: Request, uploads: seq<Upload>, items: seq<Item>, names: set<string>, ghost base: nat,
                     ghost visible: map<Path, Content>) returns (r: Option<Item>)
      requires Valid() && |items| < |uploads| && nextTemp == base + |items|
      requires StagedSoFar(q, uploads, items, base, names, visible, files, records)
      requires forall t: nat :: Backup(t) in files ==> t < base
      modifies this`step, this`files, this`nextTemp
      ensures Valid() && Visible(files) == visible && forall t: nat :: Backup(t) in files ==> t < base
      ensures r.Some? <==> Admissible(q, uploads[|items|], visible, records) && !faults(old(step))
                           && q.fold(CleanName(q, uploads[|items|])) !in FoldedNames(q, uploads, |items|)
      ensures r.Some? ==> step == old(step) + 1 && nextTemp == old(nextTemp) + 1
                          && StagedSoFar(q, uploads, items + [r.value], base, names + {q.fold(r.value.filename)}, visible,
                                         files, records)
    {
      ghost var before := files;
      r := StageOne(q, uploads[|items|], names);
      if r.None? {
        NothingShows(before, files, base);
      } else {
        StagedSoFarMore(q, uploads, items, base, names, visible, before, records, r.value);
      }
    }

    // ----- Installing -----

    /** The failure path inside one item: drop what was moved in, put back what was moved aside. */
    method PutBack(item: Item, hadBackup: bool, ghost kept: map<Path, Content>)
      requires Valid() && Backup(item.temp) !in kept && (hadBackup <==> Installed(item.rel) in kept)
      requires hadBackup ==> Backup(item.temp) in files && files[Backup(item.temp)] == kept[Installed(item.rel)]
      requires Kept(files) - {Installed(item.rel), Backup(item.temp)} == kept - {Installed(item.rel)}
      requires !hadBackup ==> Backup(item.temp) !in files
      modifies this`files
      ensures Valid() && Kept(files) == kept && OtherTemps(old(files), files, item.temp)
    {
      var final, backup := Installed(item.rel), Backup(item.temp);
      PutBackIsKept(Kept(files), kept, final, backup);
      KeptUnlink(files, item.rel);
      files := files - {final};
      if hadBackup {
        KeptMoveBack(files, item.rel, item.temp);
        files := Moved(files, backup, final);
      }
    }

    /** Move the old file aside, if there is one. */
    method MoveAside(item: Item) returns (ok: bool, hadBackup: bool)
      requires Valid() && item.temp < nextTemp && Backup(item.temp) !in files
      modifies this`step, this`files
      ensures Valid() && OtherTemps(old(files), files, item.temp)
      ensures hadBackup <==> Installed(item.rel) in old(files)
      ensures step == old(step) + (if hadBackup then 1 else 0) && (ok <==> Clear(faults, old(step), step))
      ensures !ok ==> files == old(files)
      ensures ok ==> files == if hadBackup then Moved(old(files), Installed(item.rel), Backup(item.temp)) else old(files)
    {
      ok, hadBackup := true, Installed(item.rel) in files;
      if hadBackup {
        ok := TryMove(Installed(item.rel), Backup(item.temp));
      }
    }

    /** Move the staged file in and save the record. */
    method MoveIn(q: Request, item: Item) returns (ok: bool, id: nat)
      requires Valid() && (item.existing.Some? <==> item.loaded.Some?)
      requires Staged(item.temp) in files && files[Staged(item.temp)] == item.content
      modifies this`step, this`files, this`records, this`nextId
      ensures Valid() && nextId >= old(nextId) && OtherTemps(old(files), files, item.temp)
      ensures (ok <==> Clear(faults, old(step), old(step) + 2)) && (ok ==> step == old(step) + 2)
      ensures Kept(files) == Kept(old(files))[Installed(item.rel) := item.content] || (!ok && Kept(files) == Kept(old(files)))
      ensures Backup(item.temp) in files <==> Backup(item.temp) in old(files)
      ensures Backup(item.temp) in files ==> files[Backup(item.temp)] == old(files)[Backup(item.temp)]
      ensures records == if ok then old(records)[id := RecordFor(q, item)] else old(records)
      ensures ok ==> id == item.existing.GetOr(old(nextId))
    {
      ghost var before := files;
      id := 0;
      ok := TryMove(Staged(item.temp), Installed(item.rel));
      if ok {
        KeptMoveIn(before, item.rel, item.temp);
        ok, id := TrySave(q, item);
      }
    }

    /** Install one item: move the old file aside, move the new one in, save the record. When the last two fail, the
        old file is put back before the failure is passed on. */
    method InstallOne(q: Request, item: Item) returns (ok: bool, d: Done)
      requires Valid() && (item.existing.Some? <==> item.loaded.Some?) && item.temp < nextTemp
      requires Staged(item.temp) in files && files[Staged(item.temp)] == item.content && Backup(item.temp) !in files
      modifies this`step, this`files, this`records, this`nextId
      ensures Valid() && nextId >= old(nextId) && OtherTemps(old(files), files, item.temp)
      ensures var last := old(step) + if Installed(item.rel) in old(files) then 3 else 2;
              (ok <==> Clear(faults, old(step), last)) && (ok ==> step == last)
      ensures !ok ==> Kept(files) == Kept(old(files)) && records == old(records)
      ensures ok ==> InstalledOne(q, item, old(files), old(records), files, records, d)
    {
      ghost var before := files;
      var hadBackup;
      d := Done(0, None, item.rel, item.temp, false);
      ok, hadBackup := MoveAside(item);
      if !ok {
        return;
      }
      AsideKept(before, files, item, hadBackup, item.content);
      var id;
      ok, id := MoveIn(q, item);
      if ok {
        d := Done(id, if item.loaded.Some? then Some(item.loaded.value.meta) else None, item.rel, item.temp, hadBackup);
      } else {
        PutBack(item, hadBackup, Kept(before));
      }
    }

    /** Install the staged items in order, stopping at the first that fails. */
    method Install(q: Request, uploads: seq<Upload>, items: seq<Item>, base: nat) returns (ok: bool, done: seq<Done>)
      requires Valid() && nextTemp == base + |items| && |items| == |uploads|
      requires StagedItems(q, uploads, items, base, files, records)
      requires forall t: nat :: Backup(t) in files ==> t < base
      modifies this`step, this`files, this`records, this`nextId
      ensures Valid() && (!ok ==> Undoable(old(files), old(records), files, records, done))
      ensures var last := Due(q, uploads, Visible(old(files)), old(step), |uploads|);
              (ok <==> Clear(faults, old(step), last)) && (ok ==> step == last)
      ensures ok ==> |done| == |items| && Progress(q, uploads, items, base, old(files), old(records), files, records, done)
    {
      done := [];
      ProgressStart(q, uploads, items, base, files, records);
      for k := 0 to |items|
        invariant Valid() && |done| == k && nextTemp == base + |items|
        invariant Progress(q, uploads, items, base, old(files), old(records), files, records, done)
        invariant step == Due(q, uploads, Visible(old(files)), old(step), k) && Clear(faults, old(step), step)
      {
        DueNext(faults, q, uploads, Visible(old(files)), old(step), step, k);
        var d;
        ok, d := InstallNext(q, uploads, items, base, old(files), old(records), done);
        if !ok {
          return;
        }
        done := done + [d];
      }
      ok := true;
    }

    /** Install the next item, or leave the finished ones to be undone. */
    method InstallNext(q: Request, uploads: seq<Upload>, items: seq<Item>, base: nat, ghost files0: map<Path, Content>,
                       ghost records0: map<nat, Record>, done: seq<Done>) returns (ok: bool, d: Done)
      requires Valid() && nextTemp == base + |items| && |done| < |items| == |uploads|
      requires StagedItems(q, uploads, items, base, files0, records0)
      requires Progress(q, uploads, items, base, files0, records0, files, records, done)
      modifies this`step, this`files, this`records, this`nextId
      ensures Valid()
      ensures var last := old(step) + if Replaces(q, uploads, Visible(files0), |done|) then 3 else 2;
              (ok <==> Clear(faults, old(step), last)) && (ok ==> step == last)
      ensures !ok ==> Undoable(files0, records0, files, records, done)
      ensures ok ==> Progress(q, uploads, items, base, files0, records0, files, records, done + [d])
    {
      var k := |done|;
      ghost var f, r := files, records;
      StagedNames(q, uploads, items, base, files0, records0);
      assert StagedAt(q, uploads[k], items[k], files0, records0);
      ItemReplaces(q, uploads, items, k, Visible(files0), files);
      ok, d := InstallOne(q, items[k]);
      if ok {
        ProgressMore(q, uploads, items, base, files0, records0, f, r, done, files, records, d);
      } else {
        UndoableKept(files0, records0, f, files, records, done);
      }
    }

    /** Undo the finished items, last first. */
    method Rollback(done: seq<Done>, ghost files0: map<Path, Content>, ghost records0: map<nat, Record>)
      requires Valid() && Undoable(files0, records0, files, records, done)
      modifies this`files, this`records
      ensures Valid() && Kept(files) == Kept(files0) && records == records0
    {
      assert done[..|done|] == done;
      for i := |done| downto 0
        invariant Valid() && Undoable(files0, records0, files, records, done[..i])
      {
        assert done[..i + 1][..i] == done[..i] && done[..i + 1][i] == done[i];
        UndoableBack(files0, records0, files, records, done[..i + 1]);
        UndoOne(done[i]);
      }
      TracedEmpty(records0, records);
    }

    /** Undo one installation: restore its record, remove its file, bring the replaced file back. */
    method UndoOne(d: Done)
      requires Valid() && (d.snapshot.Some? ==> d.id in records)
      modifies this`files, this`records
      ensures Valid() && records == RecordRestored(old(records), d) && Kept(files) == Restored(Kept(old(files)), d)
    {
      RestoredKept(files, d);
      records := RecordRestored(records, d);
      var final, backup := Installed(d.rel), Backup(d.temp);
      files := files - {final};
      if d.hadBackup && backup in files {
        files := Moved(files, backup, final);
      }
    }

    /** Drop the files moved aside, stopping at the first failure. */
    method DropBackups(done: seq<Done>, ghost base: nat, ghost last: nat) returns (ok: bool)
      requires Valid() && BackupsThere(done, base, 0, files) && last == step + Asides(done)
      modifies this`step, this`files
      ensures Valid() && Visible(files) == Visible(old(files))
      ensures ok <==> Clear(faults, old(step), last)
      ensures ok ==> forall j :: 0 <= j < |done| && done[j].hadBackup ==> Backup(done[j].temp) !in files
    {
      for i := 0 to |done|
        invariant Valid() && Visible(files) == Visible(old(files)) && BackupsThere(done, base, i, files)
        invariant forall j :: 0 <= j < i && done[j].hadBackup ==> Backup(done[j].temp) !in files
        invariant step == old(step) + Asides(done[..i]) && Clear(faults, old(step), step)
      {
        DropOne(done, base, i, files);
        if done[i].hadBackup && Backup(done[i].temp) in files {
          ok := Try();
          if !ok {
            return;
          }
          files := files - {Backup(done[i].temp)};
        }
      }
      assert done[..|done|] == done;
      ok := true;
    }

    /** Best-effort removal of the temporary files this call made. */
    method Sweep(base: nat)
      requires Valid()
      modifies this`step, this`files
      ensures Valid() && Visible(files) == Visible(old(files)) && step == old(step) + 1
      ensures !faults(old(step)) ==> forall p :: p in files <==> p in old(files) && (p.Installed? || p.temp < base)
    {
      var ok := Try();
      if ok {
        files := map p | p in files && (p.Installed? || p.temp < base) :: files[p];
      }
    }

    /** Install the staged items, and undo what was installed when one fails. */
    method InstallOrUndo(q: Request, uploads: seq<Upload>, items: seq<Item>, base: nat, ghost visible: map<Path, Content>,
                         ghost from: nat) returns (ok: bool, done: seq<Done>)
      requires Valid() && nextTemp == base + |items| && |items| == |uploads|
      requires StagedItems(q, uploads, items, base, files, records)
      requires forall i, j :: 0 <= i < j < |items| ==> q.fold(items[i].filename) != q.fold(items[j].filename)
      requires forall t: nat :: Backup(t) in files ==> t < base
      requires visible == Visible(files) && step == from + |uploads|
      modifies this`step, this`files, this`records, this`nextId
      ensures Valid()
      ensures var last := InstalledBy(q, uploads, visible, from);
              (ok <==> Clear(faults, from + |uploads|, last)) && (ok ==> step == last)
      ensures !ok ==> Visible(files) == visible && records == old(records)
      ensures ok ==> Committed(q, uploads, items, Ids(done), visible, old(records), Visible(files), records)
      ensures ok ==> BackupsThere(done, base, 0, files) && step + Asides(done) == DroppedBy(q, uploads, visible, from)
    {
      ghost var files0, records0 := files, records;
      ok, done := Install(q, uploads, items, base);
      if ok {
        ProgressIsCommitted(q, uploads, items, base, files0, records0, files, records, done);
      } else {
        Rollback(done, files0, records0);
        KeptSeesVisible(files, files0);
      }
    }

    /** The phases of a store call told apart: staging, installing, dropping the backups. */
    method StoreInPhases(q: Request, uploads: seq<Upload>)
        returns (outcome: Outcome, ghost items: seq<Item>, ghost staged: bool, ghost installed: bool, ghost dropped: bool)
      requires Valid()
      modifies this`step, this`files, this`records, this`nextTemp, this`nextId
      ensures Valid() && (outcome.RolledBack? <==> !installed) && (outcome.Stored? <==> dropped)
      ensures staged <==> Acceptable(q, uploads, Visible(old(files)), old(records))
                          && Clear(faults, old(step), old(step) + |uploads|)
      ensures var last := InstalledBy(q, uploads, Visible(old(files)), old(step));
              && (installed <==> staged && Clear(faults, old(step) + |uploads|, last))
              && (dropped <==> installed && Clear(faults, last, DroppedBy(q, uploads, Visible(old(files)), old(step))))
      ensures outcome.RolledBack? ==> Visible(files) == Visible(old(files)) && records == old(records)
      ensures !outcome.RolledBack? ==>
                Committed(q, uploads, items, if outcome.Stored? then outcome.ids else outcome.written,
                          Visible(old(files)), old(records), Visible(files), records)
      ensures CleanedUp(faults, step, files, old(nextTemp))
    {
      var base := nextTemp;
      staged, installed, dropped := false, false, false;
      var ok, batch := Stage(q, uploads);
      items, outcome, staged := batch, RolledBack, ok;
      if ok {
        var done;
        ok, done := InstallOrUndo(q, uploads, batch, base, Visible(old(files)), old(step));
        installed := ok;
        if ok {
          ok := DropBackups(done, base, DroppedBy(q, uploads, Visible(old(files)), old(step)));
          dropped := ok;
          outcome := if ok then Stored(Ids(done)) else StoredButFailed(Ids(done));
        }
      }
      Sweep(base);
    }

    /** `store_associated_uploads`. The batch and the fault plan decide how it ends. Whatever step fails before the
        batch is complete, every installed file and every record is as before the call. The call can still fail after
        that, while dropping backups: then the batch stands. */
    method Store(q: Request, uploads: seq<Upload>) returns (outcome: Outcome, ghost items: seq<Item>)
      requires Valid()
      modifies this`step, this`files, this`records, this`nextTemp, this`nextId
      ensures Valid()
      ensures outcome.RolledBack? <==> !GetsInstalled(faults, q, uploads, Visible(old(files)), old(records), old(step))
      ensures outcome.Stored? <==> GetsThrough(faults, q, uploads, Visible(old(files)), old(records), old(step))
      ensures outcome.RolledBack? ==> Visible(files) == Visible(old(files)) && records == old(records)
      ensures !outcome.RolledBack? ==>
                Committed(q, uploads, items, if outcome.Stored? then outcome.ids else outcome.written,
                          Visible(old(files)), old(records), Visible(files), records)
      ensures !outcome.RolledBack? ==>
                BatchSays(q, uploads, if outcome.Stored? then outcome.ids else outcome.written,
                          Visible(old(files)), old(records), Visible(files), records)
      ensures CleanedUp(faults, step, files, old(nextTemp))
    {
      ghost var staged, installed, dropped;
      outcome, items, staged, installed, dropped := StoreInPhases(q, uploads);
      PhasesDecide(faults, q, uploads, Visible(old(files)), old(records), old(step), staged, installed, dropped);
      if !outcome.RolledBack? {
        CommittedSays(q, uploads, items, if outcome.Stored? then outcome.ids else outcome.written, Visible(old(files)),
                      old(records), Visible(files), records);
      }
    }

    /** `purge_associated_file`: move the file to quarantine, delete the record, drop the quarantined file. When the
        deletion fails the file is moved back; only if that fails too is the file lost while its record stays. */
    method Purge(id: nat) returns (end: PurgeEnd)
      requires Valid() && id in records
      modifies this`step, this`files, this`records, this`nextTemp
      ensures Valid()
      ensures var s, had := old(step), Installed(old(records)[id].rel) in old(files);
              && (end.Purged? <==> Clear(faults, s, s + if had then 3 else 1))
              && (end.Lost? <==> had && !faults(s) && faults(s + 1) && faults(s + 2))
              && (end.Refused? <==> faults(s) || (had && faults(s + 1) && !faults(s + 2)))
      ensures end.Purged? || end.PurgedButFailed? ==>
                Visible(files) == Visible(old(files)) - {Installed(old(records)[id].rel)} && records == old(records) - {id}
      ensures end.Refused? ==> Visible(files) == Visible(old(files)) && records == old(records)
      ensures end.Lost? ==>
                Visible(files) == Visible(old(files)) - {Installed(old(records)[id].rel)} && records == old(records)
    {
      var path, quarantine := Installed(records[id].rel), Quarantined(nextTemp);
      var base := nextTemp;
      nextTemp := nextTemp + 1;
      var moved := path in files;
      if moved {
        var ok := TryMove(path, quarantine);
        if !ok {
          return Refused;
        }
      }
      QuarantineKeeps(old(files), files, path, quarantine);
      end := Delete(id, path, quarantine, moved);
      Sweep(base);
    }

    /** Delete the record; then drop the quarantined file, or move it back when the deletion failed. */
    method Delete(id: nat, path: Path, quarantine: Path, moved: bool) returns (end: PurgeEnd)
      requires Valid() && id in records && path.Installed? && (moved ==> quarantine in files)
      modifies this`step, this`files, this`records
      ensures Valid()
      ensures var s := old(step);
              && (end.Purged? <==> Clear(faults, s, s + if moved then 2 else 1))
              && (end.Lost? <==> moved && faults(s) && faults(s + 1))
              && (end.Refused? <==> faults(s) && !(moved && faults(s + 1)))
      ensures records == if end.Purged? || end.PurgedButFailed? then old(records) - {id} else old(records)
      ensures files == if !moved || end.Lost? || end.PurgedButFailed? then old(files)
                       else if end.Refused? then Moved(old(files), quarantine, path)
                       else old(files) - {quarantine}
    {
      var deleted := Try();
      if !deleted {
        end := Refused;
        if moved {
          var restored := TryMove(quarantine, path);
          end := if restored then Refused else Lost;
        }
        return;
      }
      records := records - {id};
      end := Purged;
      if moved {
        var dropped := Try();
        if dropped {
          files := files - {quarantine};
        } else {
          end := PurgedButFailed;
        }
      }
    }
  }
}
