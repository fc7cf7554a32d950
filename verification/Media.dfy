/**
 * What the parts of the presenter pass to each other: samples and result codes.
 */
module Media {
  /** A video sample. Its SampleCounter attribute is the token of the generation it was made in. */
  datatype Sample = Sample(id: nat, generation: nat)

  datatype HResult = S_OK | S_FALSE | E_FAIL | E_POINTER | E_INVALIDARG | E_INVALIDREQUEST
                   | MF_E_NOT_INITIALIZED | MF_E_SAMPLEALLOCATOR_EMPTY | MF_E_SHUTDOWN | MF_E_NEED_MORE_INPUT
                   | MF_E_TYPE_NOT_SET | MF_E_STREAM_CHANGE | MF_E_NO_MORE_TYPES

  predicate Failed(hr: HResult) {
    hr != S_OK && hr != S_FALSE
  }
}
