/**
  The exit-code logic of `main` in qr_generator.py: validate the URL, then
  generate, then report. Argument parsing and printing are left out; the
  model starts from the parsed URL. The generation step is represented only
  by how it would end, so no file is touched.
*/
module Cli {
  import opened UrlCheck

  /** How `generate_qr` ends: it returns the saved path, or it raises. */
  datatype Generation = Saved | Raised

  const ExitOk: int := 0
  const ExitGenerationFailed: int := 1
  const ExitImplausibleUrl: int := 2

  /**
    `main` after argument parsing. `generation` is how the generation step
    ends if it is reached; `generated` reports whether it was reached.
  */
  method Run(w: WordClass, url: string, generation: Generation) returns (code: int, generated: bool)
    ensures code == ExitOk || code == ExitGenerationFailed || code == ExitImplausibleUrl
    ensures code == ExitImplausibleUrl <==> !PlausibleUrl(w, url)
    ensures generated <==> PlausibleUrl(w, url)
    ensures code == ExitGenerationFailed <==> PlausibleUrl(w, url) && generation == Raised
    ensures code == ExitOk <==> PlausibleUrl(w, url) && generation == Saved
  {
    var plausible := IsPlausibleUrl(w, url);
    if !plausible {
      return ExitImplausibleUrl, false;
    }
    generated := true;
    match generation
    case Raised =>
      code := ExitGenerationFailed;
    case Saved =>
      code := ExitOk;
  }
}
