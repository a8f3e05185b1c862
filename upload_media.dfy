/** The media upload script: which local media files are new to the server, and the
    multipart form it posts. */
module UploadMedia {
  import opened Wrappers
  import opened Seqs

  /** `localFiles.filter(file => !existing.includes(file))`. */
  function NewFiles(localFiles: seq<string>, serverFiles: seq<string>): (r: seq<string>)
  {
    Filter(localFiles, (file: string) => file !in serverFiles)
  }

  /** `localFiles.filter(file => existing.includes(file))`. */
  function DuplicateFiles(localFiles: seq<string>, serverFiles: seq<string>): (r: seq<string>)
  {
    Filter(localFiles, (file: string) => file in serverFiles)
  }

  /** Each local file is new exactly when the server lacks it, and a duplicate exactly when the
      server has it; so no file is in both lists and, counting repetitions, the two lists
      together are the local listing. */
  lemma Partition(localFiles: seq<string>, serverFiles: seq<string>, file: string)
    ensures file in NewFiles(localFiles, serverFiles) <==> file in localFiles && file !in serverFiles
    ensures file in DuplicateFiles(localFiles, serverFiles) <==> file in localFiles && file in serverFiles
    ensures !(file in NewFiles(localFiles, serverFiles) && file in DuplicateFiles(localFiles, serverFiles))
    ensures multiset(NewFiles(localFiles, serverFiles)) + multiset(DuplicateFiles(localFiles, serverFiles)) == multiset(localFiles)
  {
    FilterMember(localFiles, (f: string) => f !in serverFiles, file);
    FilterMember(localFiles, (f: string) => f in serverFiles, file);
    FilterSplit(localFiles, (f: string) => f in serverFiles, (f: string) => f !in serverFiles);
  }

  /** Filtering keeps the local order: a new file listed before another locally is also
      listed before it among the new files. */
  lemma {:induction false} NewFilesKeepOrder(localFiles: seq<string>, serverFiles: seq<string>, a: seq<string>, b: seq<string>)
    requires localFiles == a + b
    ensures NewFiles(localFiles, serverFiles) == NewFiles(a, serverFiles) + NewFiles(b, serverFiles)
  {
    FilterAppend(a, b, (file: string) => file !in serverFiles);
  }

  /** One `form.append('files', stream)`, named by the path it streams. */
  datatype FormPart = FormPart(field: string, path: string)

  const MediaDir := "backend/media/"
  const MetadataPath := "backend/metadata.json"

  /** The form for a list of new files: one part per file, then the metadata file. */
  function FormFor(newFiles: seq<string>): (r: seq<FormPart>)
    ensures |r| == |newFiles| + 1
    ensures forall i :: 0 <= i < |newFiles| ==> r[i] == FormPart("files", MediaDir + newFiles[i])
    ensures r[|newFiles|] == FormPart("files", MetadataPath)
  {
    seq(|newFiles|, i requires 0 <= i < |newFiles| => FormPart("files", MediaDir + newFiles[i]))
      + [FormPart("files", MetadataPath)]
  }

  /** `uploadFiles()` after both listings are known: nothing is posted when no file is new;
      otherwise the form built file by file. */
  method UploadFiles(localFiles: seq<string>, serverFiles: seq<string>) returns (upload: Option<seq<FormPart>>)
    ensures upload.None? <==> NewFiles(localFiles, serverFiles) == []
    ensures upload.Some? ==> upload.value == FormFor(NewFiles(localFiles, serverFiles))
  {
    var newFiles := NewFiles(localFiles, serverFiles);
    if |newFiles| == 0 {
      return None;
    }
    var form: seq<FormPart> := [];
    for i := 0 to |newFiles|
      invariant |form| == i
      invariant forall k :: 0 <= k < i ==> form[k] == FormPart("files", MediaDir + newFiles[k])
    {
      form := form + [FormPart("files", MediaDir + newFiles[i])];
    }
    form := form + [FormPart("files", MetadataPath)];
    return Some(form);
  }

  /** Every file part of a posted form streams a local file the server lacks, and every such
      file is in the form; the metadata file is always the last part. */
  lemma FormContents(localFiles: seq<string>, serverFiles: seq<string>, file: string)
    requires NewFiles(localFiles, serverFiles) != []
    ensures var form := FormFor(NewFiles(localFiles, serverFiles));
      && form[|form| - 1].path == MetadataPath
      && (FormPart("files", MediaDir + file) in form[..|form| - 1] <==> file in localFiles && file !in serverFiles)
  {
    var nf := NewFiles(localFiles, serverFiles);
    var form := FormFor(nf);
    Partition(localFiles, serverFiles, file);
    if FormPart("files", MediaDir + file) in form[..|form| - 1] {
      var i :| 0 <= i < |form| - 1 && form[..|form| - 1][i] == FormPart("files", MediaDir + file);
      assert form[i] == FormPart("files", MediaDir + nf[i]);
      assert MediaDir + nf[i] == MediaDir + file;
      assert nf[i] == (MediaDir + nf[i])[|MediaDir|..];
      assert file == (MediaDir + file)[|MediaDir|..];
      assert nf[i] in nf;
    }
    if file in localFiles && file !in serverFiles {
      var i :| 0 <= i < |nf| && nf[i] == file;
      assert form[..|form| - 1][i] == form[i];
    }
  }
}
