/**
 * The category picker and its upload button (src/components/CategorySelect.tsx).
 */
module CategorySelect {
  import opened Wrappers
  import FileUpload

  /** `CATEGORIES`. */
  function Categories(): (c: seq<string>)
    ensures |c| == 26
    ensures forall i, j :: 0 <= i < j < |c| ==> c[i] != c[j]
  {
    [ "FMCG", "Retail", "Education Services", "Banking",
      "Digital Payments", "Insurance", "Financial Services",
      "Investment Services", "Real Estate Development", "Healthcare",
      "Energy & Utilities", "Software & IT Services",
      "Ride-Hailing & Delivery", "Logistics & Delivery",
      "Telecommunications & Internet", "Electronic Products",
      "Food & Beverage", "Home & Living", "Hospitality & Leisure",
      "Conglomerates", "Beauty & Personal Care", "Automotive",
      "Entertainment & Media", "Industrial Parks & Zones",
      "Mobile Applications", "E-commerce" ]
  }

  /** The button is disabled when the parent disables it, when no category is chosen, or during an upload. */
  predicate ButtonDisabled(disabled: bool, selectedCategory: string, isUploading: bool)
  {
    disabled || selectedCategory == "" || isUploading
  }

  /** The upload runs only with both a file and a category. */
  predicate UploadAllowed(selectedFile: Option<FileUpload.File>, selectedCategory: string)
  {
    selectedFile.Some? && selectedCategory != ""
  }

  /**
   * A click the button lets through can still be refused: the button does not look at the file,
   * so with a category and no file the click only reports the missing file.
   */
  lemma EnabledButtonWithoutFile(selectedCategory: string)
    requires !ButtonDisabled(false, selectedCategory, false)
    ensures !UploadAllowed(None, selectedCategory)
    ensures forall f :: UploadAllowed(Some(f), selectedCategory)
  {
  }

  class CategoryUploader {
    var isUploading: bool

    constructor()
      ensures !isUploading
    {
      isUploading := false;
    }

    /** `handleUpload` up to the awaited upload: refused without a file or a category. */
    method UploadStart(selectedFile: Option<FileUpload.File>, selectedCategory: string) returns (started: bool)
      modifies this
      ensures started <==> UploadAllowed(selectedFile, selectedCategory)
      ensures isUploading == (started || old(isUploading))
    {
      started := UploadAllowed(selectedFile, selectedCategory);
      if started {
        isUploading := true;
      }
    }

    /** `handleUpload` once the parent's upload has finished, successfully or not. */
    method UploadSettle()
      modifies this
      ensures !isUploading
    {
      isUploading := false;
    }
  }
}
