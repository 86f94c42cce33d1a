/**
 * The inbound file import screen `ImportComponent`
 * (inbound/import/import.component.ts): the chosen file definition, the
 * uploaded files, the preview rows with their counts, and the guards and
 * resets around them.
 */
module InboundImport {
  import opened Wrappers
  import opened Seqs

  datatype UploadedFile = UploadedFile(name: string, size: int, recordCount: int, status: string)

  datatype RowStatus = Valid | Warning | Error

  /** A preview row; the date is kept as its ISO text. */
  datatype PreviewRow = PreviewRow(documentNumber: string, supplier: string, date: string, itemCount: int, totalValue: int, status: RowStatus)

  datatype ValidationMessage = ValidationMessage(row: int, message: string)

  datatype FileDefinition = FileDefinition(
    id: string, name: string, description: string, requiredColumns: string,
    dateFormat: string, notes: string, templateUrl: Option<string>)

  /** A file the browser hands over, by name and size in bytes. */
  datatype PickedFile = PickedFile(name: string, size: nat)

  /** The four definitions `loadAvailableDefinitions` offers. */
  const AvailableDefinitions: seq<FileDefinition> := [
    FileDefinition("receiving_standard", "รับสินค้าทั่วไป", "รูปแบบมาตรฐานสำหรับการรับสินค้าจากผู้จำหน่าย",
      "เลขที่เอกสาร, ผู้จำหน่าย, รหัสสินค้า, ชื่อสินค้า, จำนวน, ราคา", "dd/mm/yyyy",
      "ไฟล์ต้องมีหัวคอลัมน์ในแถวแรก", Some("/templates/receiving_standard.xlsx")),
    FileDefinition("receiving_import", "รับสินค้านำเข้า", "รูปแบบสำหรับการรับสินค้านำเข้าจากต่างประเทศ",
      "Invoice No, Supplier, Item Code, Description, Quantity, Unit Price, Currency", "mm/dd/yyyy",
      "รองรับหลายสกุลเงิน และต้องระบุ Country of Origin", Some("/templates/receiving_import.xlsx")),
    FileDefinition("receiving_return", "รับคืนสินค้า", "รูปแบบสำหรับการรับคืนสินค้าจากลูกค้า",
      "Return No, Customer, Item Code, Return Quantity, Reason, Condition", "yyyy-mm-dd",
      "ต้องระบุสาเหตุการคืนและสภาพสินค้า", Some("/templates/receiving_return.xlsx")),
    FileDefinition("receiving_transfer", "รับโอนสินค้า", "รูปแบบสำหรับการรับโอนสินค้าระหว่างคลังสินค้า",
      "Transfer No, From Location, Item Code, Transfer Quantity, Batch No", "dd-mm-yyyy",
      "ระบุ Batch Number และ Location ต้นทาง-ปลายทาง", Some("/templates/receiving_transfer.xlsx"))]

  /** The rows `generateMockPreviewData` shows. */
  const MockPreview: seq<PreviewRow> := [
    PreviewRow("RCV-2024-001", "บริษัท ABC จำกัด", "2024-01-15", 25, 125000, Valid),
    PreviewRow("RCV-2024-002", "บริษัท XYZ จำกัด", "2024-01-16", 15, 75000, Warning),
    PreviewRow("RCV-2024-003", "บริษัท DEF จำกัด", "2024-01-17", 30, 180000, Valid)]

  /** The warning `generateMockPreviewData` reports. */
  const MockWarnings: seq<ValidationMessage> := [
    ValidationMessage(2, "ผู้จำหน่ายนี้ไม่อยู่ในระบบ จะถูกเพิ่มเป็นผู้จำหน่ายใหม่")]

  function IsValid(r: PreviewRow): bool { r.status == Valid }

  function IsError(r: PreviewRow): bool { r.status == Error }

  /** `validRecords`: the rows marked `Valid`. */
  function ValidRecords(rows: seq<PreviewRow>): (n: nat)
    ensures n <= |rows|
    ensures n == 0 <==> forall i :: 0 <= i < |rows| ==> rows[i].status != Valid
  {
    FilterNoneIff(rows, IsValid);
    |Filter(rows, IsValid)|
  }

  /** `errorRecords`: the rows marked `Error`. */
  function ErrorRecords(rows: seq<PreviewRow>): (n: nat)
    ensures n <= |rows|
    ensures n == 0 <==> forall i :: 0 <= i < |rows| ==> rows[i].status != Error
  {
    FilterNoneIff(rows, IsError);
    |Filter(rows, IsError)|
  }

  /** No row is counted twice: the two counts together never exceed the rows. */
  lemma CountsBounded(rows: seq<PreviewRow>)
    ensures ValidRecords(rows) + ErrorRecords(rows) <= |rows|
  {
    FilterDisjoint(rows, IsValid, IsError);
  }

  /** The mock preview has two valid rows and no error rows. */
  lemma MockPreviewCounts()
    ensures ValidRecords(MockPreview) == 2 && ErrorRecords(MockPreview) == 0
  {
    assert MockPreview[1..][1..][1..] == [];
  }

  /** `def => def.id === selected`. */
  function IdIs(selected: string): FileDefinition -> bool {
    (d: FileDefinition) => d.id == selected
  }

  /** `getSelectedDefinitionDetails`: the first definition with the selected id, if any. */
  function SelectedDefinition(defs: seq<FileDefinition>, selected: string): (r: Option<FileDefinition>)
    ensures r.None? <==> forall i :: 0 <= i < |defs| ==> defs[i].id != selected
    ensures r.Some? ==> r.value in defs && r.value.id == selected
  {
    Find(defs, IdIs(selected))
  }

  /** The four offered ids are distinct. */
  lemma DefinitionIdsDistinct()
    ensures forall i, j :: 0 <= i < j < |AvailableDefinitions| ==> AvailableDefinitions[i].id != AvailableDefinitions[j].id
  {
    var ids := seq(4, i requires 0 <= i < 4 => AvailableDefinitions[i].id);
    assert ids == ["receiving_standard", "receiving_import", "receiving_return", "receiving_transfer"];
  }

  /** Each offered id picks out its own definition. */
  lemma DefinitionPicked(i: nat)
    requires i < |AvailableDefinitions|
    ensures SelectedDefinition(AvailableDefinitions, AvailableDefinitions[i].id) == Some(AvailableDefinitions[i])
  {
    DefinitionIdsDistinct();
    SelectedUnique(AvailableDefinitions, i);
  }

  /** Among definitions with distinct ids, each id selects its own definition. */
  lemma SelectedUnique(defs: seq<FileDefinition>, i: nat)
    requires i < |defs|
    requires forall j, k :: 0 <= j < k < |defs| ==> defs[j].id != defs[k].id
    ensures SelectedDefinition(defs, defs[i].id) == Some(defs[i])
  {
    var r := SelectedDefinition(defs, defs[i].id);
    var k :| 0 <= k < |defs| && defs[k] == r.value;
  }

  /** `Math.round(size / 1024)` for a size in bytes: the nearest kilobyte, halves rounded up. */
  function KiloBytes(size: nat): (kb: nat)
    ensures 1024 * kb <= size + 512 < 1024 * (kb + 1)
  {
    (size + 512) / 1024
  }

  /** The entries the upload adds for `files`: name, size in kilobytes, record count, `'success'`. */
  function NewEntries(files: seq<PickedFile>, recordCounts: seq<int>): (r: seq<UploadedFile>)
    requires |recordCounts| == |files|
    ensures |r| == |files|
    ensures forall i :: 0 <= i < |files| ==>
      r[i] == UploadedFile(files[i].name, KiloBytes(files[i].size), recordCounts[i], "success")
  {
    seq(|files|, i requires 0 <= i < |files| => UploadedFile(files[i].name, KiloBytes(files[i].size), recordCounts[i], "success"))
  }

  lemma NewEntriesAppend(files: seq<PickedFile>, recordCounts: seq<int>, f: PickedFile, n: int)
    requires |recordCounts| == |files|
    ensures NewEntries(files + [f], recordCounts + [n]) == NewEntries(files, recordCounts) + [UploadedFile(f.name, KiloBytes(f.size), n, "success")]
  {
  }

  class ImportScreen {
    var isUploading: bool
    var uploadProgress: int
    var uploadedFiles: seq<UploadedFile>
    var isDragOver: bool
    var selectedDefinition: string
    var availableDefinitions: seq<FileDefinition>
    var previewData: seq<PreviewRow>
    var validationErrors: seq<ValidationMessage>
    var validationWarnings: seq<ValidationMessage>
    var isProcessing: bool
    /**
     * The upload intervals `processFiles` has started and not yet cleared,
     * oldest first, each with the files its callback captured.
     */
    var timers: seq<seq<PickedFile>>

    constructor()
      ensures !isUploading && uploadProgress == 0 && uploadedFiles == [] && !isDragOver && timers == []
      ensures selectedDefinition == "" && availableDefinitions == AvailableDefinitions
      ensures previewData == [] && validationErrors == [] && validationWarnings == [] && !isProcessing
    {
      isUploading, uploadProgress, uploadedFiles, isDragOver := false, 0, [], false;
      selectedDefinition, availableDefinitions := "", AvailableDefinitions;
      previewData, validationErrors, validationWarnings, isProcessing := [], [], [], false;
      timers := [];
    }

    /** The select bound to `selectedDefinition` takes a value, then `onDefinitionChange` runs. */
    method OnDefinitionChange(definition: string)
      modifies this`selectedDefinition, this`uploadedFiles, this`previewData, this`validationErrors, this`validationWarnings
      ensures selectedDefinition == definition
      ensures uploadedFiles == [] && previewData == [] && validationErrors == [] && validationWarnings == []
    {
      selectedDefinition := definition;
      uploadedFiles := [];
      previewData := [];
      validationErrors := [];
      validationWarnings := [];
    }

    /** `getSelectedDefinitionDetails`. */
    method GetSelectedDefinitionDetails() returns (d: Option<FileDefinition>)
      ensures d == SelectedDefinition(availableDefinitions, selectedDefinition)
      ensures d.Some? ==> d.value.id == selectedDefinition
    {
      d := Find(availableDefinitions, IdIs(selectedDefinition));
    }

    /**
     * `onFileSelected`: without a definition nothing changes (the user is
     * told to pick one); with files, `processFiles` starts the upload and
     * an interval that holds on to those files.
     */
    method OnFileSelected(files: seq<PickedFile>)
      modifies this`isUploading, this`uploadProgress, this`timers
      ensures selectedDefinition == "" || files == [] ==>
        isUploading == old(isUploading) && uploadProgress == old(uploadProgress) && timers == old(timers)
      ensures selectedDefinition != "" && files != [] ==> isUploading && uploadProgress == 0 && timers == old(timers) + [files]
    {
      if selectedDefinition == "" {
        return;
      }
      if |files| > 0 {
        isUploading := true;
        uploadProgress := 0;
        timers := timers + [files];
      }
    }

    /** `onDragOver`: the drop zone lights up only once a definition is chosen. */
    method OnDragOver()
      modifies this`isDragOver
      ensures isDragOver == (old(isDragOver) || selectedDefinition != "")
    {
      if selectedDefinition != "" {
        isDragOver := true;
      }
    }

    method OnDragLeave()
      modifies this`isDragOver
      ensures !isDragOver
    {
      isDragOver := false;
    }

    /** `onDrop`: the highlight goes off, then the files go through `onFileSelected`. */
    method OnDrop(files: seq<PickedFile>)
      modifies this`isDragOver, this`isUploading, this`uploadProgress, this`timers
      ensures !isDragOver
      ensures selectedDefinition == "" || files == [] ==>
        isUploading == old(isUploading) && uploadProgress == old(uploadProgress) && timers == old(timers)
      ensures selectedDefinition != "" && files != [] ==> isUploading && uploadProgress == 0 && timers == old(timers) + [files]
    {
      isDragOver := false;
      if selectedDefinition == "" {
        return;
      }
      OnFileSelected(files);
    }

    /**
     * One tick of the running interval `k`, every 300 ms: progress grows by
     * 10, and on reaching 100 the interval clears itself, the upload ends,
     * one entry per file it captured is added and the mock preview is
     * generated. `recordCounts` stands for the random record counts, each
     * between 1 and 100.
     */
    method ProgressTick(k: nat, recordCounts: seq<int>)
      requires k < |timers|
      requires |recordCounts| == |timers[k]| && forall i :: 0 <= i < |recordCounts| ==> 1 <= recordCounts[i] <= 100
      modifies this`uploadProgress, this`isUploading, this`uploadedFiles, this`previewData,
        this`validationWarnings, this`validationErrors, this`timers
      ensures uploadProgress == old(uploadProgress) + 10
      ensures uploadProgress < 100 ==>
        (isUploading == old(isUploading) && uploadedFiles == old(uploadedFiles) && previewData == old(previewData)
         && validationWarnings == old(validationWarnings) && validationErrors == old(validationErrors)
         && timers == old(timers))
      ensures uploadProgress >= 100 ==>
        (!isUploading && uploadedFiles == old(uploadedFiles) + NewEntries(old(timers)[k], recordCounts)
         && previewData == MockPreview && validationWarnings == MockWarnings && validationErrors == []
         && ValidRecords(previewData) == 2 && ErrorRecords(previewData) == 0
         && timers == old(timers)[..k] + old(timers)[k + 1..])
    {
      var files := timers[k];
      uploadProgress := uploadProgress + 10;
      if uploadProgress >= 100 {
        timers := timers[..k] + timers[k + 1..];
        isUploading := false;
        ghost var before := uploadedFiles;
        for i := 0 to |files|
          invariant uploadProgress == old(uploadProgress) + 10 && !isUploading
          invariant timers == old(timers)[..k] + old(timers)[k + 1..]
          invariant uploadedFiles == before + NewEntries(files[..i], recordCounts[..i])
        {
          var file := files[i];
          uploadedFiles := uploadedFiles + [UploadedFile(file.name, KiloBytes(file.size), recordCounts[i], "success")];
          assert files[..i + 1] == files[..i] + [file] && recordCounts[..i + 1] == recordCounts[..i] + [recordCounts[i]];
          NewEntriesAppend(files[..i], recordCounts[..i], file, recordCounts[i]);
        }
        assert files[..|files|] == files && recordCounts[..|files|] == recordCounts;
        GenerateMockPreviewData();
      }
    }

    /** `generateMockPreviewData`: three rows, one warning, no errors. */
    method GenerateMockPreviewData()
      modifies this`previewData, this`validationWarnings, this`validationErrors
      ensures previewData == MockPreview && validationWarnings == MockWarnings && validationErrors == []
      ensures ValidRecords(previewData) == 2 && ErrorRecords(previewData) == 0
      ensures |validationWarnings| == 1
    {
      previewData := MockPreview;
      validationWarnings := MockWarnings;
      validationErrors := [];
      MockPreviewCounts();
    }

    /**
     * `removeFile(index)`: `splice(index, 1)` on the files; the preview and
     * the messages are cleared only when no file is left.
     */
    method RemoveFile(index: int)
      modifies this`uploadedFiles, this`previewData, this`validationErrors, this`validationWarnings
      ensures uploadedFiles == SpliceOne(old(uploadedFiles), index)
      ensures uploadedFiles == [] ==> previewData == [] && validationErrors == [] && validationWarnings == []
      ensures uploadedFiles != [] ==>
        (previewData == old(previewData) && validationErrors == old(validationErrors) && validationWarnings == old(validationWarnings))
    {
      uploadedFiles := SpliceOne(uploadedFiles, index);
      if |uploadedFiles| == 0 {
        previewData := [];
        validationErrors := [];
        validationWarnings := [];
      }
    }

    /** `importData`: processing starts only when no preview row is an error. */
    method ImportData()
      modifies this`isProcessing
      ensures ErrorRecords(previewData) == 0 ==> isProcessing
      ensures ErrorRecords(previewData) != 0 ==> isProcessing == old(isProcessing)
    {
      if ErrorRecords(previewData) == 0 {
        isProcessing := true;
      }
    }

    /** The 2-second timeout `importData` sets: processing ends. */
    method ImportFinished()
      modifies this`isProcessing
      ensures !isProcessing
    {
      isProcessing := false;
    }

    /**
     * `cancel`: every list emptied, the upload flag cleared and its progress
     * reset. The intervals are not cleared: a running one goes on ticking
     * from 0 and still adds its files.
     */
    method Cancel()
      modifies this`uploadedFiles, this`previewData, this`validationErrors, this`validationWarnings,
        this`isUploading, this`uploadProgress
      ensures uploadedFiles == [] && previewData == [] && validationErrors == [] && validationWarnings == []
      ensures !isUploading && uploadProgress == 0
    {
      uploadedFiles := [];
      previewData := [];
      validationErrors := [];
      validationWarnings := [];
      isUploading := false;
      uploadProgress := 0;
    }
  }

  /** Removing an existing file removes exactly one entry. */
  lemma RemoveFileOne(files: seq<UploadedFile>, i: nat)
    requires i < |files|
    ensures |SpliceOne(files, i)| == |files| - 1
    ensures multiset(SpliceOne(files, i)) == multiset(files) - multiset{files[i]}
  {
    SplitAt(files, i);
    assert SpliceOne(files, i) == files[..i] + files[i + 1..];
    assert multiset(files) == multiset(files[..i]) + multiset{files[i]} + multiset(files[i + 1..]);
  }
}
