/**
 * FilesRepo of the image manager: turns a directory listing into folder and image entries.
 * A listing is `None` when the directory cannot be read (File.listFiles() returned null).
 */
module FilesRepo {
  import opened Wrappers

  /** A java.io.File as seen by the filters. */
  datatype File = File(name: string, absolutePath: string, isDirectory: bool)

  /** IFile: an Image or a Folder entry, each with a display name and an absolute path. */
  datatype IFile = Image(name: string, path: string) | Folder(name: string, path: string)

  /** String.endsWith, case-sensitive. */
  predicate EndsWith(s: string, suffix: string) {
    |suffix| <= |s| && s[|s| - |suffix|..] == suffix
  }

  /** The image test of filterImages, applied to the absolute path. */
  predicate IsImagePath(fp: string) {
    EndsWith(fp, ".jpg") || EndsWith(fp, ".png") || EndsWith(fp, ".jpeg")
  }

  /** The filter-then-map chain of filterImages over a non-null listing. */
  function ImagesOf(files: seq<File>): (r: seq<IFile>)
    ensures |r| <= |files|
    ensures forall i :: 0 <= i < |r| ==> r[i].Image?
  {
    if files == [] then []
    else
      var f := files[0];
      (if IsImagePath(f.absolutePath) then [Image(f.name, f.absolutePath)] else []) + ImagesOf(files[1..])
  }

  /** The filter-then-map chain of filterFolders over a non-null listing. */
  function FoldersOf(files: seq<File>): (r: seq<IFile>)
    ensures |r| <= |files|
    ensures forall i :: 0 <= i < |r| ==> r[i].Folder?
  {
    if files == [] then []
    else
      var f := files[0];
      (if f.isDirectory then [Folder(f.name, f.absolutePath)] else []) + FoldersOf(files[1..])
  }

  /** filterImages: a null listing gives the empty list. */
  function FilterImages(files: Option<seq<File>>): (r: seq<IFile>)
    ensures files.None? ==> r == []
    ensures forall i :: 0 <= i < |r| ==> r[i].Image?
  {
    match files
    case None => []
    case Some(fs) => ImagesOf(fs)
  }

  /** filterFolders: a null listing gives the empty list. */
  function FilterFolders(files: Option<seq<File>>): (r: seq<IFile>)
    ensures files.None? ==> r == []
    ensures forall i :: 0 <= i < |r| ==> r[i].Folder?
  {
    match files
    case None => []
    case Some(fs) => FoldersOf(fs)
  }

  /** getImagesInFolder: the images of the folder's listing. */
  function GetImagesInFolder(listing: Option<seq<File>>): (r: seq<IFile>)
    ensures forall i :: 0 <= i < |r| ==> r[i].Image?
    ensures listing.None? ==> r == []
  {
    FilterImages(listing)
  }

  /** getFilesInFolder: all folders of the listing, then all its images. */
  function GetFilesInFolder(listing: Option<seq<File>>): (r: seq<IFile>)
    ensures |r| == |FilterFolders(listing)| + |FilterImages(listing)|
    ensures forall i :: 0 <= i < |FilterFolders(listing)| ==> r[i].Folder?
    ensures forall i :: |FilterFolders(listing)| <= i < |r| ==> r[i].Image?
    ensures listing.None? ==> r == []
  {
    FilterFolders(listing) + FilterImages(listing)
  }

  /**
   * getFilesInFolder lists exactly the folders and the images of a readable listing: an entry
   * appears exactly when it is a listed directory or a listed file with an image path.
   */
  lemma GetFilesInFolderContents(files: seq<File>, x: IFile)
    ensures x in GetFilesInFolder(Some(files)) <==>
            (exists f :: f in files && f.isDirectory && x == Folder(f.name, f.absolutePath)) ||
            (exists f :: f in files && IsImagePath(f.absolutePath) && x == Image(f.name, f.absolutePath))
  {
    FoldersOfMembership(files, x);
    ImagesOfMembership(files, x);
  }

  /**
   * getImagesInFolder lists exactly the images of a readable listing: an entry appears exactly
   * when it is a listed file with an image path.
   */
  lemma GetImagesInFolderContents(files: seq<File>, x: IFile)
    ensures x in GetImagesInFolder(Some(files)) <==>
            exists f :: f in files && IsImagePath(f.absolutePath) && x == Image(f.name, f.absolutePath)
  {
    ImagesOfMembership(files, x);
  }

  /** An image entry is produced exactly for a listed file with an image path, carrying its name and path. */
  lemma {:induction false} ImagesOfMembership(files: seq<File>, x: IFile)
    ensures x in ImagesOf(files) <==>
            exists f :: f in files && IsImagePath(f.absolutePath) && x == Image(f.name, f.absolutePath)
  {
    if files != [] {
      ImagesOfMembership(files[1..], x);
      var f := files[0];
      if IsImagePath(f.absolutePath) && x == Image(f.name, f.absolutePath) {
        assert x in ImagesOf(files);
      }
      if exists g :: g in files[1..] && IsImagePath(g.absolutePath) && x == Image(g.name, g.absolutePath) {
        var g :| g in files[1..] && IsImagePath(g.absolutePath) && x == Image(g.name, g.absolutePath);
        assert g in files;
      }
    }
  }

  /** A folder entry is produced exactly for a listed directory, carrying its name and path. */
  lemma {:induction false} FoldersOfMembership(files: seq<File>, x: IFile)
    ensures x in FoldersOf(files) <==>
            exists f :: f in files && f.isDirectory && x == Folder(f.name, f.absolutePath)
  {
    if files != [] {
      FoldersOfMembership(files[1..], x);
      var f := files[0];
      if f.isDirectory && x == Folder(f.name, f.absolutePath) {
        assert x in FoldersOf(files);
      }
      if exists g :: g in files[1..] && g.isDirectory && x == Folder(g.name, g.absolutePath) {
        var g :| g in files[1..] && g.isDirectory && x == Folder(g.name, g.absolutePath);
        assert g in files;
      }
    }
  }

  /** The image filter keeps the listing order: it distributes over concatenation. */
  lemma {:induction false} ImagesOfAppend(a: seq<File>, b: seq<File>)
    ensures ImagesOf(a + b) == ImagesOf(a) + ImagesOf(b)
  {
    if a == [] {
      assert a + b == b;
    } else {
      assert (a + b)[1..] == a[1..] + b;
      ImagesOfAppend(a[1..], b);
    }
  }

  /** The folder filter keeps the listing order: it distributes over concatenation. */
  lemma {:induction false} FoldersOfAppend(a: seq<File>, b: seq<File>)
    ensures FoldersOf(a + b) == FoldersOf(a) + FoldersOf(b)
  {
    if a == [] {
      assert a + b == b;
    } else {
      assert (a + b)[1..] == a[1..] + b;
      FoldersOfAppend(a[1..], b);
    }
  }

  /** The suffix test is case-sensitive: an upper-case extension is not an image. */
  lemma UpperCaseExtensionIsNoImage()
    ensures ImagesOf([File("A.JPG", "/d/A.JPG", false)]) == []
  {
    assert !EndsWith("/d/A.JPG", ".jpg");
    assert !EndsWith("/d/A.JPG", ".png");
    assert !EndsWith("/d/A.JPG", ".jpeg");
  }

  /** A directory whose name ends in ".jpg" is listed both as a folder and as an image. */
  lemma DirectoryNamedLikeImageListedTwice()
    ensures GetFilesInFolder(Some([File("x.jpg", "/d/x.jpg", true)]))
            == [Folder("x.jpg", "/d/x.jpg"), Image("x.jpg", "/d/x.jpg")]
  {
    assert EndsWith("/d/x.jpg", ".jpg");
  }
}
