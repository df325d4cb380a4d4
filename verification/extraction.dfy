/** The OCR extraction pipeline of `DocumentProcessor`
    (src/services/file_text_parser.py): extension dispatch to a list of page
    images, a lazily created and cached OCR reader, and per-page recognition
    with a one-way GPU-to-CPU demotion on out-of-memory errors.

    EasyOCR, pdf2image, PIL and python-docx are oracles. Each oracle call that
    may happen more than once with the same arguments also receives a call
    counter, so that repeated calls (a retry, a second initialisation) may
    answer differently. */
module Extraction {
  import opened Base
  import opened Strings

  /** A page image. Images decoded or rasterised by a library are opaque
      handles; the DOCX placeholder is a blank canvas. */
  datatype Image = Decoded(handle: nat) | BlankCanvas(width: nat, height: nat)

  /** An `easyocr.Reader`: the device it was created for and the number of
      readers initialised before it. */
  datatype Reader = Reader(gpu: bool, serial: nat)

  /** The class attributes `_use_gpu` and `_ocr_reader` of
      `DocumentProcessor`, shared by every call in the process, with the
      counters that index oracle calls. */
  datatype Engine = Engine(useGpu: bool, reader: Option<Reader>, initCalls: nat, readCalls: nat)

  /** The libraries the pipeline calls. */
  datatype Providers = Providers(
    openImage: Bytes -> Result<Image, Exception>,              // PIL Image.open
    rasterisePdf: (Bytes, nat) -> Result<seq<Image>, Exception>, // convert_from_bytes at a dpi
    docxParagraphs: Bytes -> Result<seq<string>, Exception>,   // docx.Document(...).paragraphs
    initReader: (bool, nat) -> Option<Exception>,              // easyocr.Reader(gpu=...), n-th time
    readText: (Reader, Image, nat) -> Result<seq<string>, Exception>) // readtext(detail=0), n-th call

  /** One extracted page: its 1-based number and its text. */
  datatype Page = Page(number: int, text: string)

  /** The outcome of an operation that may raise, with the engine state it
      leaves behind either way. */
  datatype Step<T> = Step(out: Result<T, Exception>, engine: Engine)

  const PdfDpi: nat := 200
  const PlaceholderWidth: nat := 800
  const PlaceholderHeight: nat := 600
  const ImageSuffixes: seq<string> := [".png", ".jpg", ".jpeg"]

  /** The branch of `_to_images` that a file name selects. */
  datatype Format = ImageFormat | PdfFormat | DocxFormat | Unsupported(ext: string)

  function Dispatch(filename: string): Format {
    var ext := Lower(Suffix(filename));
    if ext in ImageSuffixes then ImageFormat
    else if ext == ".pdf" then PdfFormat
    else if ext == ".docx" then DocxFormat
    else Unsupported(ext)
  }

  /** `is_image_file`: holds exactly for the names that `_to_images` sends
      down its single-image branch. */
  function IsImageFile(filename: string): (b: bool)
    ensures b <==> Dispatch(filename) == ImageFormat
    ensures b ==> Suffix(filename) != []
  {
    Lower(Suffix(filename)) in ImageSuffixes
  }

  /** `_convert_docx_to_images`: no image for a document without paragraphs,
      otherwise a single blank 800x600 placeholder; a parse error propagates. */
  function ConvertDocxToImages(p: Providers, data: Bytes): (r: Result<seq<Image>, Exception>)
    ensures p.docxParagraphs(data).Err? <==> r.Err?
    ensures r.Ok? ==> |r.value| <= 1
    ensures r.Ok? ==> (r.value == [] <==> p.docxParagraphs(data).value == [])
    ensures r.Ok? ==> forall k | 0 <= k < |r.value| :: r.value[k] == BlankCanvas(PlaceholderWidth, PlaceholderHeight)
  {
    match p.docxParagraphs(data)
    case Err(e) => Err(e)
    case Ok(paragraphs) =>
      if paragraphs == [] then Ok([]) else Ok([BlankCanvas(PlaceholderWidth, PlaceholderHeight)])
  }

  function UnsupportedMessage(ext: string): string {
    "Unsupported file type for image conversion: " + ext
  }

  /** `_to_images`: one image for .png/.jpg/.jpeg, the rasterised pages of a
      .pdf, the placeholder path for .docx (case-insensitive suffix), and a
      ValueError for every other suffix. */
  function ToImages(p: Providers, data: Bytes, filename: string): (r: Result<seq<Image>, Exception>)
    ensures Dispatch(filename) == ImageFormat ==>
      (r.Ok? <==> p.openImage(data).Ok?) && (r.Ok? ==> r.value == [p.openImage(data).value])
    ensures Dispatch(filename) == PdfFormat ==> r == p.rasterisePdf(data, PdfDpi)
    ensures Dispatch(filename) == DocxFormat ==> r == ConvertDocxToImages(p, data)
    ensures Dispatch(filename).Unsupported? ==>
      r == Err(Exception(ValueError, UnsupportedMessage(Lower(Suffix(filename)))))
  {
    match Dispatch(filename)
    case ImageFormat =>
      (match p.openImage(data)
       case Err(e) => Err(e)
       case Ok(img) => Ok([img]))
    case PdfFormat => p.rasterisePdf(data, PdfDpi)
    case DocxFormat => ConvertDocxToImages(p, data)
    case Unsupported(ext) => Err(Exception(ValueError, UnsupportedMessage(ext)))
  }

  /** The engine invariant: the cached reader, when there is one, was made
      for the current device and before the latest initialisation count. */
  predicate Coherent(e: Engine) {
    e.reader.Some? ==> e.reader.value.gpu == e.useGpu && e.reader.value.serial < e.initCalls
  }

  /** `_get_ocr_reader`: the cached reader when there is one; otherwise a new
      reader for the current device, which is cached; an initialisation error
      propagates and leaves the cache empty. */
  function GetOcrReader(p: Providers, e: Engine): (s: Step<Reader>)
    ensures e.reader.Some? ==> s == Step(Ok(e.reader.value), e)
    ensures s.engine.useGpu == e.useGpu
    ensures s.out.Ok? ==> s.engine.reader == Some(s.out.value)
    ensures s.out.Err? ==> s.engine.reader.None?
    ensures e.reader.None? ==>
      (s.out.Ok? <==> p.initReader(e.useGpu, e.initCalls).None?)
      && (s.out.Ok? ==> s.out.value == Reader(e.useGpu, e.initCalls))
    ensures Coherent(e) ==> Coherent(s.engine)
    ensures s.engine.readCalls == e.readCalls
  {
    if e.reader.Some? then Step(Ok(e.reader.value), e)
    else match p.initReader(e.useGpu, e.initCalls)
      case Some(x) => Step(Err(x), e.(initCalls := e.initCalls + 1))
      case None =>
        var rd := Reader(e.useGpu, e.initCalls);
        Step(Ok(rd), e.(reader := Some(rd), initCalls := e.initCalls + 1))
  }

  /** The test in the `except RuntimeError` handler: "CUDA" anywhere in the
      message, or "out of memory" in its lower-cased form. */
  predicate IsOutOfMemory(x: Exception) {
    x.kind == RuntimeError
    && (Contains(x.message, "CUDA") || Contains(Lower(x.message), "out of memory"))
  }

  /** `" ".join(result)`. */
  function SpaceJoin(words: seq<string>): string {
    if words == [] then "" else Join(words, ' ')
  }

  /** The text recorded for a page: `" ".join(result).strip()`. */
  function PageText(words: seq<string>): (t: string)
    ensures IsStripped(t)
  {
    Strip(SpaceJoin(words))
  }

  /** The text a retried read records: the stripped, space-joined words
      when the read succeeds, "" when it raises. */
  function RetryText(p: Providers, reader: Reader, image: Image, n: nat): (t: string)
    ensures IsStripped(t)
    ensures p.readText(reader, image, n).Err? ==> t == ""
  {
    match p.readText(reader, image, n)
    case Ok(words) => PageText(words)
    case Err(_) => ""
  }

  /** The retry after an out-of-memory error: any failure of it records "". */
  function Retry(p: Providers, e: Engine, reader: Reader, image: Image): (s: Step<(string, Reader)>)
    ensures s.out.Ok? && s.out.value.1 == reader
    ensures p.readText(reader, image, e.readCalls).Ok? ==> s.out.value.0 == PageText(p.readText(reader, image, e.readCalls).value)
    ensures p.readText(reader, image, e.readCalls).Err? ==> s.out.value.0 == ""
    ensures s.engine == e.(readCalls := e.readCalls + 1)
  {
    var e1 := e.(readCalls := e.readCalls + 1);
    match p.readText(reader, image, e.readCalls)
    case Ok(words) => Step(Ok((PageText(words), reader)), e1)
    case Err(_) => Step(Ok(("", reader)), e1)
  }

  /** One iteration of the page loop of `parse_document_via_ocr`, returning
      the page text and the reader later pages use.
      - A successful read records the stripped, space-joined words.
      - An out-of-memory RuntimeError demotes a GPU engine to the CPU for
        good (the cached reader is dropped and a CPU reader obtained), then
        retries the page once; a failed retry records "".
      - Any other error propagates, as does a failure to create the CPU reader. */
  function OcrPage(p: Providers, e: Engine, reader: Reader, image: Image): (s: Step<(string, Reader)>)
    ensures s.engine.useGpu ==> e.useGpu
    ensures s.out.Ok? ==> IsStripped(s.out.value.0)
    ensures e.reader == Some(reader) && s.out.Ok? ==> s.engine.reader == Some(s.out.value.1)
    ensures Coherent(e) && e.reader == Some(reader) ==> Coherent(s.engine)
  {
    var e1 := e.(readCalls := e.readCalls + 1);
    match p.readText(reader, image, e.readCalls)
    case Ok(words) => Step(Ok((PageText(words), reader)), e1)
    case Err(x) =>
      if !IsOutOfMemory(x) then Step(Err(x), e1)
      else if e1.useGpu then
        var got := GetOcrReader(p, e1.(useGpu := false, reader := None));
        (match got.out
         case Err(y) => Step(Err(y), got.engine)
         case Ok(cpu) => Retry(p, got.engine, cpu, image))
      else Retry(p, e1, reader, image)
  }

  /** How one page's first recognition attempt decides the page's fate. */
  lemma OcrPageOutcomes(p: Providers, e: Engine, reader: Reader, image: Image)
    ensures var s := OcrPage(p, e, reader, image);
      var first := p.readText(reader, image, e.readCalls);
      && (first.Ok? ==>
            s == Step(Ok((PageText(first.value), reader)), e.(readCalls := e.readCalls + 1)))
      && (first.Err? && !IsOutOfMemory(first.error) ==>
            s.out == Err(first.error) && s.engine.useGpu == e.useGpu)
      && (first.Err? && IsOutOfMemory(first.error) ==>
            && !s.engine.useGpu
            && (!e.useGpu ==> s.out.Ok? && s.out.value.1 == reader)
            && (s.out.Err? ==> e.useGpu && s.engine.reader.None?)
            && (e.useGpu && Coherent(e) && s.out.Ok? ==> !s.out.value.1.gpu && s.out.value.1.serial >= e.initCalls)
            && (!e.useGpu ==>
                  s == Step(Ok((RetryText(p, reader, image, e.readCalls + 1), reader)),
                            e.(readCalls := e.readCalls + 2)))
            && (e.useGpu ==>
                  var got := GetOcrReader(p, e.(readCalls := e.readCalls + 1, useGpu := false, reader := None));
                  && (got.out.Err? ==> s == Step(Err(got.out.error), got.engine))
                  && (got.out.Ok? ==>
                        s == Step(Ok((RetryText(p, got.out.value, image, e.readCalls + 1), got.out.value)),
                                  got.engine.(readCalls := e.readCalls + 2)))))
  {
    var first := p.readText(reader, image, e.readCalls);
    if first.Err? && IsOutOfMemory(first.error) {
      if e.useGpu {
        OcrPageRetriesOnCpuReader(p, e, reader, image);
      } else {
        OcrPageRetriesOnCpu(p, e, reader, image);
      }
    }
  }

  /** An out-of-memory error on the CPU: the same reader reads the page again. */
  lemma OcrPageRetriesOnCpu(p: Providers, e: Engine, reader: Reader, image: Image)
    requires !e.useGpu
    requires p.readText(reader, image, e.readCalls).Err? && IsOutOfMemory(p.readText(reader, image, e.readCalls).error)
    ensures OcrPage(p, e, reader, image)
         == Step(Ok((RetryText(p, reader, image, e.readCalls + 1), reader)), e.(readCalls := e.readCalls + 2))
  {
    var e1 := e.(readCalls := e.readCalls + 1);
    assert OcrPage(p, e, reader, image) == Retry(p, e1, reader, image);
    var r := Retry(p, e1, reader, image);
    assert r.out.value.0 == RetryText(p, reader, image, e1.readCalls);
    assert r.engine == e.(readCalls := e.readCalls + 2);
  }

  /** An out-of-memory error on the GPU: a CPU reader is obtained and reads
      the page again, or its initialisation error is raised. */
  lemma OcrPageRetriesOnCpuReader(p: Providers, e: Engine, reader: Reader, image: Image)
    requires e.useGpu
    requires p.readText(reader, image, e.readCalls).Err? && IsOutOfMemory(p.readText(reader, image, e.readCalls).error)
    ensures var got := GetOcrReader(p, e.(readCalls := e.readCalls + 1, useGpu := false, reader := None));
      && (got.out.Err? ==> OcrPage(p, e, reader, image) == Step(Err(got.out.error), got.engine))
      && (got.out.Ok? ==>
            OcrPage(p, e, reader, image)
              == Step(Ok((RetryText(p, got.out.value, image, e.readCalls + 1), got.out.value)),
                      got.engine.(readCalls := e.readCalls + 2)))
  {
  }

  /** The pages are numbered consecutively from `first` and hold stripped text. */
  predicate NumberedFrom(pages: seq<Page>, first: int) {
    forall k | 0 <= k < |pages| :: pages[k].number == first + k && IsStripped(pages[k].text)
  }

  /** A page numbered `first` before pages numbered from `first + 1`. */
  lemma NumberedCons(first: int, text: string, pages: seq<Page>)
    requires IsStripped(text) && NumberedFrom(pages, first + 1)
    ensures NumberedFrom([Page(first, text)] + pages, first)
  {
    var all := [Page(first, text)] + pages;
    assert forall k | 1 <= k < |all| :: all[k] == pages[k - 1];
  }

  /** The page loop over `images`, numbering pages from `first`. */
  function OcrPages(p: Providers, e: Engine, reader: Reader, images: seq<Image>, first: int): (s: Step<seq<Page>>)
    ensures s.engine.useGpu ==> e.useGpu
    ensures s.out.Ok? ==> |s.out.value| == |images|
    ensures s.out.Ok? ==> NumberedFrom(s.out.value, first)
    ensures e.reader == Some(reader) && s.out.Ok? ==> s.engine.reader.Some?
    ensures Coherent(e) && e.reader == Some(reader) ==> Coherent(s.engine)
    decreases |images|
  {
    if images == [] then Step(Ok([]), e)
    else
      var head := OcrPage(p, e, reader, images[0]);
      match head.out
      case Err(x) => Step(Err(x), head.engine)
      case Ok(pr) =>
        var rest := OcrPages(p, head.engine, pr.1, images[1..], first + 1);
        match rest.out
        case Err(x) => Step(Err(x), rest.engine)
        case Ok(pages) =>
          NumberedCons(first, pr.0, pages);
          Step(Ok([Page(first, pr.0)] + pages), rest.engine)
  }

  /** A page whose first read succeeds: its text is recorded, the reader
      kept, and the loop carries on with the next image. */
  lemma OcrPagesAfterRead(p: Providers, e: Engine, reader: Reader, images: seq<Image>, first: int)
    requires images != [] && p.readText(reader, images[0], e.readCalls).Ok?
    ensures var rest := OcrPages(p, e.(readCalls := e.readCalls + 1), reader, images[1..], first + 1);
      var text := PageText(p.readText(reader, images[0], e.readCalls).value);
      OcrPages(p, e, reader, images, first)
        == if rest.out.Ok? then Step(Ok([Page(first, text)] + rest.out.value), rest.engine) else rest
  {
    var text := PageText(p.readText(reader, images[0], e.readCalls).value);
    assert OcrPage(p, e, reader, images[0]) == Step(Ok((text, reader)), e.(readCalls := e.readCalls + 1));
  }

  /** A page whose first read fails with an error other than out-of-memory
      ends the loop with that error. */
  lemma OcrPagesFails(p: Providers, e: Engine, reader: Reader, images: seq<Image>, first: int, x: Exception)
    requires images != [] && p.readText(reader, images[0], e.readCalls) == Err(x) && !IsOutOfMemory(x)
    ensures OcrPages(p, e, reader, images, first) == Step(Err(x), e.(readCalls := e.readCalls + 1))
  {
    assert OcrPage(p, e, reader, images[0]) == Step(Err(x), e.(readCalls := e.readCalls + 1));
  }

  /** Every first recognition attempt on `images` succeeds, the attempts
      being counted from `n`. */
  predicate FirstReadsSucceed(p: Providers, reader: Reader, images: seq<Image>, n: nat) {
    forall k | 0 <= k < |images| :: p.readText(reader, images[k], n + k).Ok?
  }

  /** The pages recorded when every first attempt succeeds: page `first + k`
      holds the stripped, space-joined words read from image `k`, with the
      attempts counted from `n`. */
  function ReadPages(p: Providers, reader: Reader, images: seq<Image>, n: nat, first: int): (pages: seq<Page>)
    ensures |pages| == |images|
    decreases |images|
  {
    if images == [] then []
    else
      var text := match p.readText(reader, images[0], n) case Ok(words) => PageText(words) case Err(_) => "";
      [Page(first, text)] + ReadPages(p, reader, images[1..], n + 1, first + 1)
  }

  /** Page `k` of the recorded pages is numbered `first + k` and holds the
      text OCR returned for image `k`. */
  lemma {:induction false} ReadPagesAt(p: Providers, reader: Reader, images: seq<Image>, n: nat, first: int, k: nat)
    requires k < |images|
    requires p.readText(reader, images[k], n + k).Ok?
    ensures ReadPages(p, reader, images, n, first)[k]
         == Page(first + k, PageText(p.readText(reader, images[k], n + k).value))
    decreases k
  {
    if k > 0 {
      var tail := images[1..];
      assert p.readText(reader, tail[k - 1], (n + 1) + (k - 1)) == p.readText(reader, images[k], n + k);
      ReadPagesAt(p, reader, tail, n + 1, first + 1, k - 1);
      assert ReadPages(p, reader, images, n, first)[k] == ReadPages(p, reader, tail, n + 1, first + 1)[k - 1];
    }
  }

  /** Dropping the first image of a run of successful first reads leaves a
      run that starts one attempt later. */
  lemma FirstReadsTail(p: Providers, reader: Reader, images: seq<Image>, n: nat)
    requires images != [] && FirstReadsSucceed(p, reader, images, n)
    ensures p.readText(reader, images[0], n).Ok?
    ensures FirstReadsSucceed(p, reader, images[1..], n + 1)
  {
    var tail := images[1..];
    forall k | 0 <= k < |tail| ensures p.readText(reader, tail[k], n + 1 + k).Ok? {
      assert tail[k] == images[k + 1];
    }
  }

  /** When every first read succeeds, the loop records exactly what OCR
      returned for each image, in order, and reads each image once. */
  lemma {:induction false} OcrPagesAllRead(p: Providers, e: Engine, reader: Reader, images: seq<Image>, first: int)
    ensures FirstReadsSucceed(p, reader, images, e.readCalls) ==>
      OcrPages(p, e, reader, images, first)
        == Step(Ok(ReadPages(p, reader, images, e.readCalls, first)), e.(readCalls := e.readCalls + |images|))
    decreases |images|
  {
    if images == [] {
      assert e.(readCalls := e.readCalls + 0) == e;
    } else if FirstReadsSucceed(p, reader, images, e.readCalls) {
      FirstReadsTail(p, reader, images, e.readCalls);
      OcrPagesAfterRead(p, e, reader, images, first);
      OcrPagesAllRead(p, e.(readCalls := e.readCalls + 1), reader, images[1..], first + 1);
    }
  }


  /** The first reads of the images before `j` succeed and the first read
      of image `j` fails with `x`, an error other than out-of-memory; the
      attempts are counted from `n`. */
  predicate FailsAt(p: Providers, reader: Reader, images: seq<Image>, n: nat, j: nat, x: Exception) {
    && j < |images|
    && FirstReadsSucceed(p, reader, images[..j], n)
    && p.readText(reader, images[j], n + j) == Err(x)
    && !IsOutOfMemory(x)
  }

  /** A failure at `j > 0`, seen from the second image. */
  lemma FailsAtTail(p: Providers, reader: Reader, images: seq<Image>, n: nat, j: nat, x: Exception)
    requires 0 < j && FailsAt(p, reader, images, n, j, x)
    ensures p.readText(reader, images[0], n).Ok?
    ensures FailsAt(p, reader, images[1..], n + 1, j - 1, x)
  {
    var pre := images[..j];
    assert pre[0] == images[0];
    var tail := images[1..];
    assert tail[j - 1] == images[j];
    var rest := tail[..j - 1];
    forall k | 0 <= k < |rest| ensures p.readText(reader, rest[k], n + 1 + k).Ok? {
      assert rest[k] == pre[k + 1];
    }
  }

  /** When the first reads of the images before `j` succeed and the first
      read of image `j` fails with `x`, an error other than out-of-memory,
      the loop raises `x`. */
  lemma {:induction false} OcrPagesStopsAtError(p: Providers, e: Engine, reader: Reader, images: seq<Image>,
                                                first: int, j: nat, x: Exception)
    ensures FailsAt(p, reader, images, e.readCalls, j, x) ==> OcrPages(p, e, reader, images, first).out == Err(x)
    decreases j
  {
    if FailsAt(p, reader, images, e.readCalls, j, x) {
      if j == 0 {
        OcrPagesFails(p, e, reader, images, first, x);
      } else {
        var e1 := e.(readCalls := e.readCalls + 1);
        FailsAtTail(p, reader, images, e.readCalls, j, x);
        OcrPagesStopsAtError(p, e1, reader, images[1..], first + 1, j - 1, x);
        OcrPagesAfterRead(p, e, reader, images, first);
      }
    }
  }

  /** The outcome of a run of the page loop on the CPU, and the read counter
      after it. */
  datatype Run = Run(out: Result<seq<Page>, Exception>, calls: nat)

  /** A page recorded in front of a run that did not raise. */
  function PrependPage(page: Page, run: Run): Run {
    if run.out.Ok? then Run(Ok([page] + run.out.value), run.calls) else run
  }

  /** The page loop on the CPU with one reader, reads counted from `n`: a
      successful first read records its text; an out-of-memory error costs a
      second read of the same image, whose text or "" is recorded; any other
      error ends the run. */
  function CpuRun(p: Providers, reader: Reader, images: seq<Image>, n: nat, first: int): (r: Run)
    ensures n <= r.calls <= n + 2 * |images|
    ensures r.out.Ok? ==> |r.out.value| == |images| && n + |images| <= r.calls
    decreases |images|
  {
    if images == [] then Run(Ok([]), n)
    else match p.readText(reader, images[0], n)
      case Ok(words) => PrependPage(Page(first, PageText(words)), CpuRun(p, reader, images[1..], n + 1, first + 1))
      case Err(x) =>
        if !IsOutOfMemory(x) then Run(Err(x), n + 1)
        else PrependPage(Page(first, RetryText(p, reader, images[0], n + 1)),
                         CpuRun(p, reader, images[1..], n + 2, first + 1))
  }

  /** A page whose first read runs out of memory on the CPU: the retried
      read's text or "" is recorded and the loop carries on two reads later. */
  lemma OcrPagesAfterCpuRetry(p: Providers, e: Engine, reader: Reader, images: seq<Image>, first: int, x: Exception)
    requires images != [] && !e.useGpu
    requires p.readText(reader, images[0], e.readCalls) == Err(x) && IsOutOfMemory(x)
    ensures var rest := OcrPages(p, e.(readCalls := e.readCalls + 2), reader, images[1..], first + 1);
      var text := RetryText(p, reader, images[0], e.readCalls + 1);
      OcrPages(p, e, reader, images, first)
        == if rest.out.Ok? then Step(Ok([Page(first, text)] + rest.out.value), rest.engine) else rest
  {
    OcrPageOutcomes(p, e, reader, images[0]);
  }

  /** The page loop over `images` gives CpuRun's pages or error, and an
      engine changed only in its read counter. */
  predicate LoopIsCpuRun(p: Providers, e: Engine, reader: Reader, images: seq<Image>, first: int) {
    var run := CpuRun(p, reader, images, e.readCalls, first);
    OcrPages(p, e, reader, images, first) == Step(run.out, e.(readCalls := run.calls))
  }

  /** One successful read in front of a loop that is a CPU run. */
  lemma CpuRunAfterRead(p: Providers, e: Engine, reader: Reader, images: seq<Image>, first: int)
    requires images != [] && !e.useGpu && p.readText(reader, images[0], e.readCalls).Ok?
    requires LoopIsCpuRun(p, e.(readCalls := e.readCalls + 1), reader, images[1..], first + 1)
    ensures LoopIsCpuRun(p, e, reader, images, first)
  {
    OcrPagesAfterRead(p, e, reader, images, first);
  }

  /** One retried page in front of a loop that is a CPU run. */
  lemma CpuRunAfterRetry(p: Providers, e: Engine, reader: Reader, images: seq<Image>, first: int, x: Exception)
    requires images != [] && !e.useGpu
    requires p.readText(reader, images[0], e.readCalls) == Err(x) && IsOutOfMemory(x)
    requires LoopIsCpuRun(p, e.(readCalls := e.readCalls + 2), reader, images[1..], first + 1)
    ensures LoopIsCpuRun(p, e, reader, images, first)
  {
    OcrPagesAfterCpuRetry(p, e, reader, images, first, x);
  }

  /** A page whose first read raises an error other than out-of-memory. */
  lemma CpuRunFails(p: Providers, e: Engine, reader: Reader, images: seq<Image>, first: int, x: Exception)
    requires images != [] && p.readText(reader, images[0], e.readCalls) == Err(x) && !IsOutOfMemory(x)
    ensures LoopIsCpuRun(p, e, reader, images, first)
  {
    OcrPagesFails(p, e, reader, images, first, x);
  }

  /** On the CPU the page loop is exactly CpuRun: the same pages or error,
      and an engine changed only in its read counter. */
  lemma {:induction false} OcrPagesOnCpu(p: Providers, e: Engine, reader: Reader, images: seq<Image>, first: int)
    ensures !e.useGpu ==> LoopIsCpuRun(p, e, reader, images, first)
    decreases |images|, 1
  {
    if images == [] {
      assert e.(readCalls := e.readCalls) == e;
    } else if !e.useGpu {
      var read := p.readText(reader, images[0], e.readCalls);
      if read.Ok? {
        CpuRunReadStep(p, e, reader, images, first);
      } else if !IsOutOfMemory(read.error) {
        CpuRunFails(p, e, reader, images, first, read.error);
      } else {
        CpuRunRetryStep(p, e, reader, images, first, read.error);
      }
    }
  }

  /** OcrPagesOnCpu for a first page that is read. */
  lemma {:induction false} CpuRunReadStep(p: Providers, e: Engine, reader: Reader, images: seq<Image>, first: int)
    requires images != [] && !e.useGpu && p.readText(reader, images[0], e.readCalls).Ok?
    ensures LoopIsCpuRun(p, e, reader, images, first)
    decreases |images|, 0
  {
    OcrPagesOnCpu(p, e.(readCalls := e.readCalls + 1), reader, images[1..], first + 1);
    CpuRunAfterRead(p, e, reader, images, first);
  }

  /** OcrPagesOnCpu for a first page that is retried. */
  lemma {:induction false} CpuRunRetryStep(p: Providers, e: Engine, reader: Reader, images: seq<Image>, first: int,
                                           x: Exception)
    requires images != [] && !e.useGpu
    requires p.readText(reader, images[0], e.readCalls) == Err(x) && IsOutOfMemory(x)
    ensures LoopIsCpuRun(p, e, reader, images, first)
    decreases |images|, 0
  {
    OcrPagesOnCpu(p, e.(readCalls := e.readCalls + 2), reader, images[1..], first + 1);
    CpuRunAfterRetry(p, e, reader, images, first, x);
  }

  /** A page whose first read runs out of memory on the GPU: the engine is
      demoted and a CPU reader is created; its initialisation error is
      raised, or the page records the retried read's text or "" and the rest
      of the loop runs on the CPU with the new reader. */
  lemma OcrPagesAfterDemotion(p: Providers, e: Engine, reader: Reader, images: seq<Image>, first: int)
    ensures
      && images != [] && e.useGpu
      && p.readText(reader, images[0], e.readCalls).Err?
      && IsOutOfMemory(p.readText(reader, images[0], e.readCalls).error)
      ==>
        var got := GetOcrReader(p, e.(readCalls := e.readCalls + 1, useGpu := false, reader := None));
        var s := OcrPages(p, e, reader, images, first);
        && (got.out.Err? ==> s == Step(Err(got.out.error), got.engine))
        && (got.out.Ok? ==>
              var run := PrependPage(Page(first, RetryText(p, got.out.value, images[0], e.readCalls + 1)),
                                     CpuRun(p, got.out.value, images[1..], e.readCalls + 2, first + 1));
              s == Step(run.out, got.engine.(readCalls := run.calls)))
  {
    if && images != [] && e.useGpu
       && p.readText(reader, images[0], e.readCalls).Err?
       && IsOutOfMemory(p.readText(reader, images[0], e.readCalls).error)
    {
      var got := GetOcrReader(p, e.(readCalls := e.readCalls + 1, useGpu := false, reader := None));
      OcrPageOutcomes(p, e, reader, images[0]);
      if got.out.Ok? {
        var e2 := got.engine.(readCalls := e.readCalls + 2);
        OcrPagesOnCpu(p, e2, got.out.value, images[1..], first + 1);
      }
    }
  }

  /** The body of `parse_document_via_ocr` after `_to_images` has answered:
      on success, one page per image, numbered 1..n in order, each holding
      stripped text; zero images give no pages but the reader is still
      obtained first; a conversion error propagates before any reader is
      created. The device flag only ever goes from GPU to CPU. */
  function OcrImages(p: Providers, e: Engine, converted: Result<seq<Image>, Exception>): (s: Step<seq<Page>>)
    ensures s.engine.useGpu ==> e.useGpu
    ensures converted.Err? ==> s == Step(Err(converted.error), e)
    ensures s.out.Ok? ==> converted.Ok? && |s.out.value| == |converted.value|
    ensures s.out.Ok? ==> NumberedFrom(s.out.value, 1)
    ensures s.out.Ok? ==> s.engine.reader.Some?
    ensures converted == Ok([]) ==>
      s.out == (if GetOcrReader(p, e).out.Ok? then Ok([]) else Err(GetOcrReader(p, e).out.error))
    ensures Coherent(e) ==> Coherent(s.engine)
  {
    match converted
    case Err(x) => Step(Err(x), e)
    case Ok(images) =>
      var got := GetOcrReader(p, e);
      match got.out
      case Err(x) => Step(Err(x), got.engine)
      case Ok(reader) =>
        if images == [] then Step(Ok([]), got.engine)
        else OcrPages(p, got.engine, reader, images, 1)
  }

  /** `parse_document_via_ocr`: the file is converted to page images by its
      suffix, then each image is recognised in order. An unsupported suffix
      fails before any reader is created; a DOCX gives at most one page. */
  function ParseDocumentViaOcr(p: Providers, e: Engine, data: Bytes, filename: string): (s: Step<seq<Page>>)
    ensures Dispatch(filename).Unsupported? ==>
      s == Step(Err(Exception(ValueError, UnsupportedMessage(Lower(Suffix(filename))))), e)
    ensures s.out.Ok? ==> ToImages(p, data, filename).Ok? && |s.out.value| == |ToImages(p, data, filename).value|
    ensures s.out.Ok? ==> NumberedFrom(s.out.value, 1)
    ensures Dispatch(filename) == DocxFormat && s.out.Ok? ==> |s.out.value| <= 1
    ensures Dispatch(filename) == ImageFormat && s.out.Ok? ==> |s.out.value| == 1
    ensures s.engine.useGpu ==> e.useGpu
    ensures Coherent(e) ==> Coherent(s.engine)
  {
    OcrImages(p, e, ToImages(p, data, filename))
  }

  /** For a file whose conversion succeeds and whose reader loads:
      - when every first read succeeds, the result maps page `k + 1` to the
        text OCR returned for image `k`, and each image was read once;
      - when the first read of image `j` fails with `x`, an error other than
        out-of-memory, after the earlier ones succeeded, the call raises `x`. */
  lemma ParsedPages(p: Providers, e: Engine, data: Bytes, filename: string, j: nat, x: Exception)
    ensures
      var converted := ToImages(p, data, filename);
      var got := GetOcrReader(p, e);
      var s := ParseDocumentViaOcr(p, e, data, filename);
      converted.Ok? && got.out.Ok? ==>
        var images, reader := converted.value, got.out.value;
        && (FirstReadsSucceed(p, reader, images, e.readCalls) ==>
              && s.out == Ok(ReadPages(p, reader, images, e.readCalls, 1))
              && s.engine == got.engine.(readCalls := e.readCalls + |images|))
        && (FailsAt(p, reader, images, e.readCalls, j, x) ==> s.out == Err(x))
  {
    var converted := ToImages(p, data, filename);
    var got := GetOcrReader(p, e);
    if converted.Ok? && got.out.Ok? {
      var images, reader := converted.value, got.out.value;
      if images == [] {
        assert got.engine.(readCalls := e.readCalls + 0) == got.engine;
      } else {
        ParsedViaLoop(p, e, data, filename);
        if FirstReadsSucceed(p, reader, images, e.readCalls) {
          OcrPagesAllRead(p, got.engine, reader, images, 1);
        }
        OcrPagesStopsAtError(p, got.engine, reader, images, 1, j, x);
      }
    }
  }

  /** With at least one image and a reader, the parse is the page loop. */
  lemma ParsedViaLoop(p: Providers, e: Engine, data: Bytes, filename: string)
    requires ToImages(p, data, filename).Ok? && ToImages(p, data, filename).value != []
    requires GetOcrReader(p, e).out.Ok?
    ensures ParseDocumentViaOcr(p, e, data, filename)
      == OcrPages(p, GetOcrReader(p, e).engine, GetOcrReader(p, e).out.value, ToImages(p, data, filename).value, 1)
  {
  }
}
