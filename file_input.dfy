/** The file and image widget: which files a selection may hold, what it passes to
    `onChange`, and the list of chosen names it keeps for display. */
module FileInput {
  import opened Wrappers
  import opened JsText
  import opened JsValue
  import opened FormTypes

  /** A chosen file as the widget sees it. */
  datatype SelectedFile = SelectedFile(name: string, size: int)

  /** The `accept` attribute of the file input. */
  function AcceptTypes(field: Field): (r: string)
    ensures field.fieldType == Image ==> r == "image/*"
    ensures field.fieldType != Image && field.allowedTypes.None? ==> r == ""
    ensures field.fieldType != Image && field.allowedTypes.Some? ==> r == Join(field.allowedTypes.value, ",")
    ensures field.fieldType != Image && field.allowedTypes.Some? ==>
      forall i :: 0 <= i < |field.allowedTypes.value| ==> Includes(r, field.allowedTypes.value[i])
  {
    if field.fieldType == Image then "image/*"
    else if field.allowedTypes.Some? then
      (JoinIncludesEach(field.allowedTypes.value, ",");
       Join(field.allowedTypes.value, ","))
    else ""
  }

  /** Every part of a joined list occurs in the joined text. */
  lemma {:induction false} JoinIncludesEach(parts: seq<string>, sep: string)
    ensures forall i :: 0 <= i < |parts| ==> Includes(Join(parts, sep), parts[i])
    decreases |parts|
  {
    if |parts| == 1 {
      PrefixIncluded(parts[0], parts[0]);
    } else if |parts| > 1 {
      var rest := Join(parts[1..], sep);
      var whole := Join(parts, sep);
      assert whole == parts[0] + sep + rest;
      assert whole[..|parts[0]|] == parts[0];
      PrefixIncluded(whole, parts[0]);
      JoinIncludesEach(parts[1..], sep);
      forall i | 1 <= i < |parts|
        ensures Includes(whole, parts[i])
      {
        assert parts[1..][i - 1] == parts[i];
        var k := IncludesWitness(rest, parts[i]);
        var off := |parts[0]| + |sep|;
        assert whole[off + k..off + k + |parts[i]|] == rest[k..k + |parts[i]|];
        IncludesAt(whole, parts[i], off + k);
      }
    }
  }

  /** `if (typedField.maxSize)`: the limit applies when it is set and non-zero. */
  predicate SizeLimitActive(field: Field) {
    field.maxSize.Some? && field.maxSize.value != 0
  }

  function Names(files: seq<SelectedFile>): (names: seq<string>)
    ensures |names| == |files|
    ensures forall i :: 0 <= i < |files| ==> names[i] == files[i].name
  {
    seq(|files|, i requires 0 <= i < |files| => files[i].name)
  }

  function AsValues(files: seq<SelectedFile>): (vs: seq<Value>)
    ensures |vs| == |files|
    ensures forall i :: 0 <= i < |files| ==> vs[i] == FileObject(files[i].name, files[i].size)
  {
    seq(|files|, i requires 0 <= i < |files| => FileObject(files[i].name, files[i].size))
  }

  /** The widget's state: the names it lists under the input, and the files the
      browser's input element currently holds (`fileInputRef.current.value`). */
  class FilePicker {
    const field: Field
    var fileNames: seq<string>
    var inputFiles: seq<SelectedFile>

    constructor(field: Field)
      ensures this.field == field && fileNames == [] && inputFiles == []
    {
      this.field := field;
      fileNames := [];
      inputFiles := [];
    }

    /** `handleFileChange` for a change event whose `files` list is `files` (None for
        a null list). It returns what `onChange` received (None when it was not
        called) and the name of the file an over-size `alert` reported. */
    method HandleFileChange(files: Option<seq<SelectedFile>>) returns (emitted: Option<Value>, rejected: Option<string>)
      modifies this
      ensures files.None? || files.value == [] ==>
        fileNames == [] && emitted == Some(Null) && rejected == None && inputFiles == []
      ensures files.Some? && files.value != [] ==> (rejected.Some? <==> !WithinLimit(field, files.value))
      ensures rejected.Some? ==>
        emitted == None && fileNames == old(fileNames) && inputFiles == [] &&
        exists i :: 0 <= i < |files.value| && files.value[i].name == rejected.value &&
          files.value[i].size > field.maxSize.value &&
          forall j :: 0 <= j < i ==> files.value[j].size <= field.maxSize.value
      ensures files.Some? && files.value != [] && rejected.None? ==>
        fileNames == Names(files.value) && inputFiles == files.value &&
        emitted == Some(if field.multiple then List(AsValues(files.value))
                        else FileObject(files.value[0].name, files.value[0].size))
    {
      if files.None? || files.value == [] {
        fileNames := [];
        inputFiles := [];
        return Some(Null), None;
      }
      var fs := files.value;
      if SizeLimitActive(field) {
        var limit := field.maxSize.value;
        for i := 0 to |fs|
          invariant forall j :: 0 <= j < i ==> fs[j].size <= limit
        {
          if fs[i].size > limit {
            inputFiles := [];
            return None, Some(fs[i].name);
          }
        }
      }
      inputFiles := fs;
      fileNames := Names(fs);
      if !field.multiple {
        emitted := Some(FileObject(fs[0].name, fs[0].size));
      } else {
        emitted := Some(List(AsValues(fs)));
      }
      rejected := None;
    }

    /** `handleRemoveFile`: clears the list and the input, and emits null. */
    method HandleRemoveFile() returns (emitted: Value)
      modifies this
      ensures fileNames == [] && inputFiles == [] && emitted == Null
    {
      fileNames := [];
      inputFiles := [];
      emitted := Null;
    }
  }

  /** A selection passes the size check exactly when the limit is off or no file
      is larger than it. */
  predicate WithinLimit(field: Field, files: seq<SelectedFile>) {
    !SizeLimitActive(field) || forall i :: 0 <= i < |files| ==> files[i].size <= field.maxSize.value
  }

  /** A file of exactly the limit passes. */
  lemma ExactLimitAccepted(field: Field, files: seq<SelectedFile>)
    requires SizeLimitActive(field)
    requires forall i :: 0 <= i < |files| ==> files[i].size == field.maxSize.value
    ensures WithinLimit(field, files)
  {
  }

  /** With `maxSize` unset or 0 every selection passes, however large. */
  lemma NoLimitAcceptsAll(field: Field, files: seq<SelectedFile>)
    requires field.maxSize.None? || field.maxSize == Some(0)
    ensures WithinLimit(field, files)
  {
  }
}
