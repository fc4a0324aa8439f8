/** The parts of struct url the models use (url.h).  `str` holds the sz bytes
    before the terminating NUL. */
module Urls {

  datatype Url = Url(str: seq<int>, hostO: nat, hostL: nat, fileO: nat) {

    /** What lm_url_set and lm_url_combine leave: 8- and 16-bit sizes, the host
        before the path, and a path that starts with the '/' at or before fileO. */
    predicate Valid() {
      && |str| <= 0xFFFF
      && hostO <= 0xFF && hostL <= 0xFF
      && hostO + hostL <= fileO < |str|
    }
  }
}
