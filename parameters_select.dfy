/**
 * The sampling parameters form of the upload page (src/components/ParametersSelect.tsx).
 */
module ParametersSelect {
  import opened Wrappers
  import opened Numbers
  import P = Params
  import FileUpload

  /** `Number(e)` applied to what a field emits: `null` becomes 0. */
  function NumberOf(emitted: Option<Num>): Num
  {
    if emitted.None? then Finite(0.0) else emitted.value
  }

  /** `handleChange(key, value)`: the record with only `key` replaced, a missing value becoming NaN. */
  function HandleChange(params: P.Params, key: P.Key, value: Option<Num>): (r: P.Params)
    ensures P.Get(r, key) == value.GetOr(NaN)
    ensures forall other :: other != key ==> P.Get(r, other) == P.Get(params, other)
  {
    P.Update(params, key, value.GetOr(NaN))
  }

  /** The button is disabled exactly when the parameters fail the gate; nothing else is looked at. */
  predicate ButtonDisabled(params: P.Params)
  {
    !P.HasAllValidParams(params)
  }

  /**
   * The button is enabled exactly when every parameter is finite and not negative; a field that
   * emitted `-1` for invalid text disables it whatever the other two hold.
   */
  lemma ButtonGate(params: P.Params, key: P.Key)
    ensures !ButtonDisabled(params) <==> forall k :: P.ValidParam(P.Get(params, k))
    ensures ButtonDisabled(HandleChange(params, key, Some(NumberOf(Some(Sentinel)))))
  {
    P.ValidIffEachKeyValid(params);
    P.InvalidValueDisables(params, key, Sentinel);
  }

  class ParametersUploader {
    var isUploading: bool

    constructor()
      ensures !isUploading
    {
      isUploading := false;
    }

    /** `handleUpload` up to the awaited upload: refused without a file. */
    method UploadStart(selectedFile: Option<FileUpload.File>) returns (started: bool)
      modifies this
      ensures started <==> selectedFile.Some?
      ensures isUploading == (started || old(isUploading))
    {
      started := selectedFile.Some?;
      if started {
        isUploading := true;
      }
    }

    /** `handleUpload` once the parent's upload has finished, successfully or not. */
    method UploadSettle()
      modifies this
      ensures !isUploading
    {
      isUploading := false;
    }
  }
}
