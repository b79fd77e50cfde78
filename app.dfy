/**
 * The state logic of the widget in src/App.tsx: the attachment URLs of the
 * selected cell, the cursor into them, the EXIF data shown for the current
 * image, and the user's mapping from EXIF labels to table fields, together
 * with the handlers that change them: loading a cell's attachments, moving
 * to the next or previous image, editing the mapping, and writing the mapped
 * values back into the selected record. Host calls, fetches and storage are
 * parameters of the handlers; what would be written or announced is returned.
 */
module Widget {
  import opened Wrappers
  import opened Text
  import opened JsValue
  import opened Dict
  import opened Utils

  /** Translated EXIF data: display label to displayed value. */
  type ExifData = Dict<Scalar>

  /** EXIF label to the id of the field it is written to. */
  type FieldMapping = Dict<string>

  /** A host call that resolves with a value or rejects. */
  datatype Host<T> = Resolved(value: T) | Rejected

  datatype Selection = Selection(tableId: Option<string>, recordId: Option<string>, fieldId: Option<string>)

  /** A truthy id: one that is there and is not the empty string. */
  predicate Present(id: Option<string>)
  {
    id.Some? && id.value != ""
  }

  /**
   * The value read from the selected attachment cell: the read rejected, the
   * value is not an array, or it is an array of attachments with these tokens.
   */
  datatype Cell = CellFailed | NotAttachments | Attachments(tokens: seq<string>)

  datatype Failure = NoSelection | NoDataToUpdate | HostError

  /** The toasts the handlers raise. */
  datatype Notice = UpdateSucceeded | UpdateFailed(reason: Failure) | FirstImage | LastImage

  /** The one record that `table.setRecords` is called with. */
  datatype RecordUpdate = RecordUpdate(recordId: string, fields: Dict<string>)

  /** What the EXIF data shows once a fetch settles: its object, null, or still the previous data. */
  function Shown(fetched: Fetched, previous: Option<ExifData>): Option<ExifData>
  {
    match fetched
    case Found(data) => Some(data)
    case NullData => None
    case Pending => previous
  }

  // ---------------------------------------------------------------------
  // The fields to update

  /** `exifData && exifData[exifKey]`, with `None` for `null` or `undefined`. */
  function Lookup(exifData: Option<ExifData>, exifKey: string): Option<Scalar>
  {
    match exifData
    case None => None
    case Some(d) => Get(d, exifKey)
  }

  /** A mapping entry is written back when its EXIF value is truthy and its field id is not empty. */
  predicate Eligible(exifData: Option<ExifData>, entry: (string, string))
  {
    Lookup(exifData, entry.0).Some? && Truthy(Lookup(exifData, entry.0).value) && entry.1 != ""
  }

  /** `fieldsToUpdate` after the loop has visited the first `n` mapping entries. */
  function UpdatePrefix(mapping: FieldMapping, exifData: Option<ExifData>, n: nat): Dict<string>
    requires n <= |mapping|
  {
    if n == 0 then []
    else
      var fieldsToUpdate := UpdatePrefix(mapping, exifData, n - 1);
      var (exifKey, fieldId) := mapping[n - 1];
      if Eligible(exifData, mapping[n - 1])
      then Put(fieldsToUpdate, fieldId, ToText(Lookup(exifData, exifKey).value))
      else fieldsToUpdate
  }

  function UpdateSet(mapping: FieldMapping, exifData: Option<ExifData>): Dict<string>
  {
    UpdatePrefix(mapping, exifData, |mapping|)
  }

  /** No eligible entry among the first `n` after entry `i` writes to the same field. */
  predicate LastFor(mapping: FieldMapping, exifData: Option<ExifData>, i: nat, n: nat)
    requires i < n <= |mapping|
  {
    forall j :: i < j < n && Eligible(exifData, mapping[j]) ==> mapping[j].1 != mapping[i].1
  }

  lemma {:induction false} UpdatePrefixKeys(mapping: FieldMapping, exifData: Option<ExifData>, n: nat)
    requires n <= |mapping|
    ensures Distinct(UpdatePrefix(mapping, exifData, n))
    ensures forall f :: f in Keys(UpdatePrefix(mapping, exifData, n)) <==>
              exists i :: 0 <= i < n && Eligible(exifData, mapping[i]) && mapping[i].1 == f
  {
    if n > 0 {
      UpdatePrefixKeys(mapping, exifData, n - 1);
      var prev := UpdatePrefix(mapping, exifData, n - 1);
      var u := UpdatePrefix(mapping, exifData, n);
      var (exifKey, fieldId) := mapping[n - 1];
      if Eligible(exifData, mapping[n - 1]) {
        var text := ToText(Lookup(exifData, exifKey).value);
        assert u == Put(prev, fieldId, text);
        PutDistinct(prev, fieldId, text);
        forall f ensures f in Keys(u) <==> exists i :: 0 <= i < n && Eligible(exifData, mapping[i]) && mapping[i].1 == f {
          if f == fieldId {
            assert Eligible(exifData, mapping[n - 1]) && mapping[n - 1].1 == f;
          } else {
            assert f in Keys(u) <==> f in Keys(prev);
          }
        }
      } else {
        assert u == prev;
      }
    }
  }

  lemma {:induction false} UpdatePrefixLastWins(mapping: FieldMapping, exifData: Option<ExifData>, n: nat)
    requires n <= |mapping|
    ensures forall i :: 0 <= i < n && Eligible(exifData, mapping[i]) && LastFor(mapping, exifData, i, n) ==>
              Get(UpdatePrefix(mapping, exifData, n), mapping[i].1) == Some(ToText(Lookup(exifData, mapping[i].0).value))
  {
    if n > 0 {
      UpdatePrefixLastWins(mapping, exifData, n - 1);
      var prev := UpdatePrefix(mapping, exifData, n - 1);
      var u := UpdatePrefix(mapping, exifData, n);
      var (exifKey, fieldId) := mapping[n - 1];
      forall i | 0 <= i < n && Eligible(exifData, mapping[i]) && LastFor(mapping, exifData, i, n)
        ensures Get(u, mapping[i].1) == Some(ToText(Lookup(exifData, mapping[i].0).value))
      {
        if Eligible(exifData, mapping[n - 1]) {
          var text := ToText(Lookup(exifData, exifKey).value);
          assert u == Put(prev, fieldId, text);
          PutGet(prev, fieldId, text);
          if i < n - 1 {
            assert mapping[i].1 != fieldId;
            assert LastFor(mapping, exifData, i, n - 1);
          }
        } else {
          assert u == prev;
          assert i < n - 1;
          assert LastFor(mapping, exifData, i, n - 1);
        }
      }
    }
  }

  /**
   * The write-back set holds a field id exactly when some mapping entry with
   * a truthy EXIF value names that non-empty field; each field receives the
   * text of the value of the last such entry in iteration order.
   */
  lemma UpdateSetMeaning(mapping: FieldMapping, exifData: Option<ExifData>)
    ensures Distinct(UpdateSet(mapping, exifData))
    ensures forall f :: f in Keys(UpdateSet(mapping, exifData)) <==>
              exists i :: 0 <= i < |mapping| && Eligible(exifData, mapping[i]) && mapping[i].1 == f
    ensures forall i :: 0 <= i < |mapping| && Eligible(exifData, mapping[i]) && LastFor(mapping, exifData, i, |mapping|) ==>
              Get(UpdateSet(mapping, exifData), mapping[i].1) == Some(ToText(Lookup(exifData, mapping[i].0).value))
    ensures exifData.None? ==> UpdateSet(mapping, exifData) == []
  {
    UpdatePrefixKeys(mapping, exifData, |mapping|);
    UpdatePrefixLastWins(mapping, exifData, |mapping|);
    if exifData.None? {
      UpdatePrefixOfNull(mapping, |mapping|);
    }
  }

  lemma {:induction false} UpdatePrefixOfNull(mapping: FieldMapping, n: nat)
    requires n <= |mapping|
    ensures UpdatePrefix(mapping, None, n) == []
  {
    if n > 0 {
      UpdatePrefixOfNull(mapping, n - 1);
    }
  }

  /** The loop of updateExifInfoToFields that fills `fieldsToUpdate`. */
  method FieldsToUpdate(mapping: FieldMapping, exifData: Option<ExifData>) returns (fieldsToUpdate: Dict<string>)
    ensures fieldsToUpdate == UpdateSet(mapping, exifData)
  {
    fieldsToUpdate := [];
    for i := 0 to |mapping|
      invariant fieldsToUpdate == UpdatePrefix(mapping, exifData, i)
    {
      var (exifKey, fieldId) := mapping[i];
      if exifData.Some? && Get(exifData.value, exifKey).Some? && Truthy(Get(exifData.value, exifKey).value) && fieldId != "" {
        fieldsToUpdate := Put(fieldsToUpdate, fieldId, ToText(Get(exifData.value, exifKey).value));
      }
    }
  }

  // ---------------------------------------------------------------------
  // The text copied to the clipboard

  function EntryLine(entry: (string, Scalar)): string
  {
    entry.0 + ": " + ToText(entry.1)
  }

  function Lines(d: ExifData): (lines: seq<string>)
    ensures |lines| == |d|
    ensures forall i :: 0 <= i < |d| ==> lines[i] == EntryLine(d[i])
  {
    if d == [] then [] else [EntryLine(d[0])] + Lines(d[1..])
  }

  /** The `key: value` lines of the EXIF data joined by newlines; empty for `null`. */
  function ExifText(exifData: Option<ExifData>): string
  {
    match exifData
    case None => ""
    case Some(d) => Join(Lines(d), '\n')
  }

  /**
   * The copied text is empty when there is no data, and otherwise splits at
   * its newlines into exactly one `key: value` line per entry, in entry
   * order, as long as no key or value holds a newline itself.
   */
  lemma ExifTextLines(exifData: Option<ExifData>)
    ensures exifData.None? || exifData == Some([]) ==> ExifText(exifData) == ""
    ensures exifData.Some? && exifData.value != [] &&
            (forall i :: 0 <= i < |exifData.value| ==> '\n' !in EntryLine(exifData.value[i])) ==>
              Split(ExifText(exifData), '\n') == Lines(exifData.value)
  {
    if exifData.Some? && exifData.value != [] &&
       (forall i :: 0 <= i < |exifData.value| ==> '\n' !in EntryLine(exifData.value[i])) {
      SplitJoin(Lines(exifData.value), '\n');
    }
  }

  /**
   * Every object fetchExifData settles with is a JavaScript object, so no
   * label occurs in it twice (as `FetchExifData` ensures).
   */
  ghost predicate FetchesObjects(fetch: string -> Fetched)
  {
    forall u :: fetch(u).Found? ==> Distinct(fetch(u).data)
  }

  // ---------------------------------------------------------------------
  // The component state

  class App {
    var attachmentUrls: seq<string>
    var currentImageIndex: nat
    var exifData: Option<ExifData>
    var fieldMappings: FieldMapping
    /** What local storage holds under the `fieldMappings` key. */
    var storedMappings: Option<FieldMapping>
    /** The loading spinner of getAttachments. */
    var loading: bool

    /**
     * The cursor is 0 or points into the URL list, no label is mapped twice,
     * the shown EXIF data has no repeated label, and a stored mapping is the
     * one in use.
     */
    ghost predicate Valid()
      reads this
    {
      && (currentImageIndex == 0 || currentImageIndex < |attachmentUrls|)
      && Distinct(fieldMappings)
      && (exifData.Some? ==> Distinct(exifData.value))
      && (storedMappings.Some? ==> storedMappings.value == fieldMappings)
    }

    /** The initial state, after the start-up effect has restored a stored mapping. */
    constructor (saved: Option<FieldMapping>)
      requires saved.Some? ==> Distinct(saved.value)
      ensures Valid()
      ensures attachmentUrls == [] && currentImageIndex == 0 && exifData == None && !loading
      ensures fieldMappings == (if saved.Some? then saved.value else []) && storedMappings == saved
    {
      attachmentUrls := [];
      currentImageIndex := 0;
      exifData := None;
      loading := false;
      storedMappings := saved;
      fieldMappings := if saved.Some? then saved.value else [];
    }

    /** Maps `exifKey` to `fieldId`, leaving every other label as it was, and stores the new mapping. */
    method UpdateFieldMapping(exifKey: string, fieldId: string)
      requires Valid()
      modifies this
      ensures Valid()
      ensures fieldMappings == Put(old(fieldMappings), exifKey, fieldId)
      ensures Get(fieldMappings, exifKey) == Some(fieldId)
      ensures forall k :: k != exifKey ==> Get(fieldMappings, k) == Get(old(fieldMappings), k)
      ensures storedMappings == Some(fieldMappings)
      ensures attachmentUrls == old(attachmentUrls) && currentImageIndex == old(currentImageIndex)
      ensures exifData == old(exifData) && loading == old(loading)
    {
      var newMappings := Put(fieldMappings, exifKey, fieldId);
      storedMappings := Some(newMappings);
      fieldMappings := newMappings;
      PutGet(old(fieldMappings), exifKey, fieldId);
      PutDistinct(old(fieldMappings), exifKey, fieldId);
    }

    /**
     * Writes the mapped EXIF values into the selected record with a single
     * `setRecords` call. `selection` is what getSelection gave, `tableFound`
     * whether getTableById resolved and `written` whether setRecords did.
     */
    method UpdateExifInfoToFields(selection: Host<Selection>, tableFound: bool, written: bool)
      returns (request: Option<RecordUpdate>, notice: Notice)
      ensures selection.Rejected? ==> request == None && notice == UpdateFailed(HostError)
      ensures selection.Resolved? && !(Present(selection.value.tableId) && Present(selection.value.recordId)) ==>
                request == None && notice == UpdateFailed(NoSelection)
      ensures request.Some? <==>
                selection.Resolved? && Present(selection.value.tableId) && Present(selection.value.recordId)
                && tableFound && UpdateSet(fieldMappings, exifData) != []
      ensures request.Some? ==>
                request.value == RecordUpdate(selection.value.recordId.value, UpdateSet(fieldMappings, exifData))
      ensures notice == UpdateFailed(NoDataToUpdate) <==>
                selection.Resolved? && Present(selection.value.tableId) && Present(selection.value.recordId)
                && tableFound && UpdateSet(fieldMappings, exifData) == []
      ensures notice == UpdateSucceeded <==> request.Some? && written
      ensures selection.Resolved? && Present(selection.value.tableId) && Present(selection.value.recordId) && !tableFound ==>
                request == None && notice == UpdateFailed(HostError)
      ensures request.Some? && !written ==> notice == UpdateFailed(HostError)
    {
      request := None;
      if selection.Rejected? {
        return request, UpdateFailed(HostError);
      }
      var sel := selection.value;
      if !Present(sel.tableId) || !Present(sel.recordId) {
        return request, UpdateFailed(NoSelection);
      }
      if !tableFound {
        return request, UpdateFailed(HostError);
      }
      var fieldsToUpdate := FieldsToUpdate(fieldMappings, exifData);
      if |Keys(fieldsToUpdate)| == 0 {
        return request, UpdateFailed(NoDataToUpdate);
      }
      request := Some(RecordUpdate(sel.recordId.value, fieldsToUpdate));
      notice := if written then UpdateSucceeded else UpdateFailed(HostError);
    }

    /** The state getAttachments leaves behind, given what the host calls and the fetch gave. */
    twostate predicate CellLoaded(cell: Cell, urls: Host<seq<string>>, fetch: string -> Fetched)
      reads this
    {
      && fieldMappings == old(fieldMappings) && storedMappings == old(storedMappings)
      && if cell.Attachments? && |cell.tokens| > 0 && urls.Resolved? then
           && attachmentUrls == urls.value && currentImageIndex == 0
           && if |urls.value| > 0 then
                exifData == Shown(fetch(urls.value[0]), old(exifData)) && loading == fetch(urls.value[0]).Pending?
              else
                exifData == None && !loading
         else
           && attachmentUrls == old(attachmentUrls) && currentImageIndex == old(currentImageIndex)
           && exifData == None && !loading
    }

    /**
     * Loads the attachments of a cell: `cell` is what getCellValue gave, `urls`
     * what getCellAttachmentUrls gave for its tokens, and `fetch(u)` how
     * fetchExifData(u) settles.
     */
    method GetAttachments(cell: Cell, urls: Host<seq<string>>, fetch: string -> Fetched)
      requires Valid()
      requires FetchesObjects(fetch)
      modifies this
      ensures Valid()
      ensures CellLoaded(cell, urls, fetch)
    {
      loading := true;
      if cell.Attachments? && |cell.tokens| > 0 {
        if urls.Rejected? {
          exifData := None;
        } else {
          attachmentUrls := urls.value;
          currentImageIndex := 0;
          if |urls.value| > 0 {
            var data := fetch(urls.value[0]);
            if data.Pending? {
              return;
            }
            exifData := if data.Found? then Some(data.data) else None;
          } else {
            exifData := None;
          }
        }
      } else {
        exifData := None;
      }
      loading := false;
    }

    /** The selection-change handler: loads the cell only when a record and a field are selected. */
    method SelectionChanged(selection: Selection, cell: Cell, urls: Host<seq<string>>, fetch: string -> Fetched)
      requires Valid()
      requires FetchesObjects(fetch)
      modifies this
      ensures Valid()
      ensures Present(selection.recordId) && Present(selection.fieldId) ==> CellLoaded(cell, urls, fetch)
      ensures !(Present(selection.recordId) && Present(selection.fieldId)) ==>
                attachmentUrls == old(attachmentUrls) && currentImageIndex == old(currentImageIndex)
                && exifData == old(exifData) && fieldMappings == old(fieldMappings)
                && storedMappings == old(storedMappings) && loading == old(loading)
    {
      if Present(selection.recordId) && Present(selection.fieldId) {
        GetAttachments(cell, urls, fetch);
      }
    }

    /**
     * Moves to the next image and shows how its fetch settles; on the last
     * image only raises the `lastImage` notice.
     */
    method LoadNextImageExifData(fetch: string -> Fetched) returns (notice: Option<Notice>)
      requires Valid()
      requires FetchesObjects(fetch)
      modifies this
      ensures Valid()
      ensures attachmentUrls == old(attachmentUrls) && fieldMappings == old(fieldMappings)
      ensures storedMappings == old(storedMappings) && loading == old(loading)
      ensures if old(currentImageIndex) < |attachmentUrls| - 1 then
                && currentImageIndex == old(currentImageIndex) + 1 && notice == None
                && exifData == Shown(fetch(attachmentUrls[currentImageIndex]), old(exifData))
              else
                && currentImageIndex == old(currentImageIndex) && exifData == old(exifData)
                && notice == Some(LastImage)
    {
      if currentImageIndex < |attachmentUrls| - 1 {
        var newIndex := currentImageIndex + 1;
        currentImageIndex := newIndex;
        var data := fetch(attachmentUrls[newIndex]);
        exifData := Shown(data, exifData);
        notice := None;
      } else {
        notice := Some(LastImage);
      }
    }

    /**
     * Moves to the previous image and shows how its fetch settles; on the
     * first image only raises the `firstImage` notice.
     */
    method LoadPreviousImageExifData(fetch: string -> Fetched) returns (notice: Option<Notice>)
      requires Valid()
      requires FetchesObjects(fetch)
      modifies this
      ensures Valid()
      ensures attachmentUrls == old(attachmentUrls) && fieldMappings == old(fieldMappings)
      ensures storedMappings == old(storedMappings) && loading == old(loading)
      ensures if old(currentImageIndex) > 0 then
                && currentImageIndex == old(currentImageIndex) - 1 && notice == None
                && exifData == Shown(fetch(attachmentUrls[currentImageIndex]), old(exifData))
              else
                && currentImageIndex == old(currentImageIndex) && exifData == old(exifData)
                && notice == Some(FirstImage)
    {
      if currentImageIndex > 0 {
        var newIndex := currentImageIndex - 1;
        currentImageIndex := newIndex;
        var data := fetch(attachmentUrls[newIndex]);
        exifData := Shown(data, exifData);
        notice := None;
      } else {
        notice := Some(FirstImage);
      }
    }
  }
}
