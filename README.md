# PFM library: a verified model in Dafny

This project models the core of a small Java library for Portable Float Map (PFM) images, together with proofs about that model. It covers three parts:

- **The decoded image, `PFMImage`.** An image holds `width*height` samples (gray) or `3*width*height` samples (color), stored row by row. It offers indexed access, gray/color queries and `getColorAt`. It can be converted to an 8-bit RGBA raster in two ways: a direct gamma-corrected mapping, and a min/max-normalised mapping.
- **The decoder, `PFMReader.read`.** It works over the bytes of a file. It reads three header lines byte by byte, then the magic token (`Pf` for gray, `PF` for color), the size line and the signed scale. It reads the body with a chunked read loop. Finally it reassembles 4-byte groups into binary32 words, in the byte order the scale's sign selects (IEEE 754-2008, section 3.4, for the interchange format of the words).
- **The comparison utilities, `PFMUtil`.** The mean squared error of two images, and the image of their scaled absolute channel differences.

Modules:

- `Results` holds the result and error types.
- `Numerics` holds `Abs`, `Sq`, `Truncate` and the record of abstract float operations.
- `PfmImage` holds the image class and its tone mapping.
- `PfmReader` holds the decoder.
- `PfmUtil` holds MSE and `difference`.

How the model represents the source:

- **Samples are `real`.** `Math.pow`, the explicit `(float)` casts, `Float.parseFloat`, the float reciprocal `1.f / x` and the bits-to-float conversion stay uninterpreted. They are fields of a `FloatOps` record that the operations take as a parameter, so every property holds for any choice of them.
- **Integer casts.** `(int)` of a double is truncation toward zero.
- **The image and the decoder's loops are imperative.**
  - The image is a class with an `array<real>` of samples.
  - `setFloat` and the power pre-pass change that array in place.
  - The raster converters fill an `array2<Quad>`.
  - The decoder's header loop, read loop and sample loop are methods. Each is proved against a function of the input: `HeaderSplit`, `Body` and `Samples`.
- **The comparison utilities are loops too.** They are proved against the specification functions `MeanSquaredError` and `DifferenceSamples`.
- **Constructor errors.** The Java constructor throws on bad arguments. It is modelled by `PFMImage.New`, which returns a `Result`.
- **Input and failures.** The file is a sequence of bytes. Each partial read of the stream is modelled by a list of chunk sizes, and a call beyond that list delivers everything asked for. The exceptions thrown in the source are the `Err` values of `Results.Error`.

Behaviour of the code that the model keeps and a reader might not expect:

- The normalised converter's power pass raises the first `width*height` samples to the power `1/gamma` and overwrites them in the image itself, so the image is changed by the conversion. The normalised values go to a separate working array.
- It processes only the first `width*height` samples; see Findings.
- The size line is split with `String.split(" ")`: on single spaces, keeping leading and inner empty tokens and dropping trailing ones.
- The reader rejects a negative width or height. A zero width or height passes the reader and is rejected by the constructor.
- A body shorter than `width*height*4*samples` bytes is accepted: the missing bytes stay 0.
- The degenerate case `max == min` of normalisation computes `0 * Infinity` in the source. That is NaN, which the `(int)` cast turns into 0. The model stores 0.0, which gives the same channel.

## Model

| member | source | states |
|---|---|---|
| PfmImage.CheckShape | src/io/PFMImage.java:64-85 | construction succeeds exactly when width > 0, height > 0 and the count is w*h or 3*w*h; the first failing check names the error; on success gray holds exactly when the count is w*h |
| PfmImage.PFMImage.New | src/io/PFMImage.java:64-87 | construction fails exactly as CheckShape says; on success the image has the given size, gray is (count == w*h), and the samples are a fresh copy equal to the source array |
| PfmImage.PFMImage.constructor | src/io/PFMImage.java:83-86 | the fields are set, the sample array is fresh and equal to the argument, and the image is Valid |
| PfmImage.PFMImage.Resolution | src/io/PFMImage.java:73 | the pixel count is positive when width and height are |
| PfmImage.PFMImage.GetFloat | src/io/PFMImage.java:98-100 | returns sample i exactly when i is an index of the array; otherwise IndexOutOfBounds |
| PfmImage.PFMImage.SetFloat | src/io/PFMImage.java:112-115 | a valid index changes that sample only; an invalid one fails and changes nothing; size and mode are constants |
| PfmImage.PFMImage.NbOfFloats | src/io/PFMImage.java:122-124 | the array length, equal to the pixel count exactly when the image is gray |
| PfmImage.PFMImage.IsGrayScale | src/io/PFMImage.java:131-133 | the sample count is width*height; ModesExclusive proves it agrees with the gray flag |
| PfmImage.PFMImage.IsColor | src/io/PFMImage.java:140-142 | the sample count is 3*width*height; ModesExclusive proves it is the negation of the gray flag |
| PfmImage.ModesExclusive | src/io/PFMImage.java:131-142 | for a constructed image isGrayScale agrees with gray and isColor with its negation, so exactly one holds |
| PfmImage.PFMImage.GetColorAt | src/io/PFMImage.java:156-171 | fails exactly outside [0,width)x[0,height); gray gives floats[y*w+x] three times, color gives floats[3(y*w+x) .. +3], always in bounds |
| PfmImage.RowMajorBounds | src/io/PFMImage.java:164-168 | y*width+x lies in [0, width*height) for every pixel inside the image |
| PfmImage.Clamp | src/io/PFMImage.java:266-273 | with min <= max the result lies in [min,max]; a value inside is returned unchanged; below min gives min, above max gives max |
| PfmImage.ToInt | src/io/PFMImage.java:285-292 | always in [0,255]; 0 for f < 0, 255 for f > 1, otherwise the clamped truncation of 255*pow(f, invGamma) |
| PfmImage.DirectQuad | src/io/PFMImage.java:185-197 | alpha 255, every channel a byte; a gray sample is replicated to R, G and B; color reads the three consecutive samples |
| PfmImage.RasterX | src/io/PFMImage.java:192 | the raster column `i % width` of source pixel i, always in [0, width) |
| PfmImage.RasterY | src/io/PFMImage.java:192 | the raster row `height - 1 - i / width` of source pixel i, bottom row first; PlacementInRaster bounds it by the height |
| PfmImage.SourceIndex | src/io/PFMImage.java:192 | the source pixel shown at a raster place lies in [0, width*height) |
| PfmImage.PlacementInRaster | src/io/PFMImage.java:192-198 | source pixel i lands at column i % width, row height-1-i/width, inside the raster, and SourceIndex reads i back |
| PfmImage.PlacementOnto | src/io/PFMImage.java:192-198 | each raster place is where the pixel SourceIndex names is placed |
| PfmImage.PlacementBijection | src/io/PFMImage.java:187-199 | placement is a bijection between [0, width*height) and the width x height raster |
| PfmImage.PFMImage.ToBufferedImage | src/io/PFMImage.java:180-204 | a fresh width x height raster whose place (x,y) holds DirectQuad of the source pixel shown there |
| PfmImage.SeqMin | src/io/PFMImage.java:221-229 | the running minimum is one of the samples and is at most each of them |
| PfmImage.SeqMax | src/io/PFMImage.java:221-229 | the running maximum is one of the samples and is at least each of them |
| PfmImage.ExtremesStep | src/io/PFMImage.java:225-228 | one more sample updates the running minimum and maximum by strict comparison |
| PfmImage.NormalizedAt | src/io/PFMImage.java:231-234 | entry k of the working array: one of the first n samples rescaled when the minimum and maximum differ, otherwise the array's initial 0; its range is stated by UnitAt and TopAt |
| PfmImage.Rescaled | src/io/PFMImage.java:234 | one sample minus the minimum, times the inverse range, rounded to a float; bounded by UnitRatio and TopRatio |
| PfmImage.Normalized | src/io/PFMImage.java:231-234 | the working array has one entry per sample; entry k is NormalizedAt for the minimum and maximum of the first n samples |
| PfmImage.ScaledChannel | src/io/PFMImage.java:238-246 | always in [0,255]; 0 for v <= 0 and 255 for v >= 1 |
| PfmImage.ScaledQuad | src/io/PFMImage.java:236-249 | alpha 255, every channel a byte, gray replicated, color read from three consecutive working-array entries |
| PfmImage.PFMImage.PowerPass | src/io/PFMImage.java:221-229 | the first n samples are replaced in place by toFloat(pow(old, invGamma)), later samples are unchanged, and min/max are the minimum and maximum of the new first n |
| PfmImage.PFMImage.NormalizedCopy | src/io/PFMImage.java:231-234 | a fresh working array equal to Normalized of the samples over the first n |
| PfmImage.PFMImage.ScaledRaster | src/io/PFMImage.java:236-250 | a fresh raster whose place (x,y) holds ScaledQuad of the working array for the source pixel shown there |
| PfmImage.PFMImage.ToScaledBufferedImage | src/io/PFMImage.java:214-253 | as written: samples below width*height are overwritten by the power pass, the rest are untouched, and the raster is ScaledQuad of Normalized over the first width*height samples |
| PfmImage.ColorTailDark | src/io/PFMImage.java:231-246 | as written, on a color image every pixel i with 3i >= width*height shows black, whatever its samples |
| PfmImage.Unreached | src/io/PFMImage.java:231-233 | an entry of the working array at or past the normalised count stays 0 |
| PfmImage.PFMImage.ToScaledBufferedImageAll | src/io/PFMImage.java:214-253 | corrected: every sample is overwritten by the power pass and the raster is ScaledQuad of Normalized over all samples |
| PfmImage.NormalizedAllSamples | src/io/PFMImage.java:231-234 | normalising all samples: every entry is its own sample normalised by the minimum and maximum of all samples |
| PfmImage.NormalizedEntry | src/io/PFMImage.java:231-234 | entry k of the working array over all samples is NormalizedAt of sample k |
| PfmImage.NormalizedInUnit | src/io/PFMImage.java:231-234 | without float rounding, normalising all samples puts every entry in [0,1] |
| PfmImage.UnitAt | src/io/PFMImage.java:234 | a sample between the minimum and maximum normalises into [0,1] |
| PfmImage.UnitRatio | src/io/PFMImage.java:232-234 | (v - min) * (1 / (max - min)) lies in [0,1] for min <= v <= max, min < max |
| PfmImage.TopRatio | src/io/PFMImage.java:232-234 | the maximum normalises to exactly 1 |
| PfmImage.TopAt | src/io/PFMImage.java:234 | a sample equal to the strict maximum normalises to 1 |
| PfmImage.NormalizedTop | src/io/PFMImage.java:231-234 | with all samples normalised, a strict maximum becomes 1 |
| PfmImage.ScaledTailDiffers | src/io/PFMImage.java:231-246 | a color image whose last sample is the strict maximum shows the last pixel's blue as 0 as written and 255 corrected |
| PfmReader.NextNewline | src/io/PFMReader.java:32-35 | the first newline byte at or after a position; no newline lies before it |
| PfmReader.LineEnds | src/io/PFMReader.java:32-38 | the first three newline positions, increasing, with no other newline before the third |
| PfmReader.LineEnd | src/io/PFMReader.java:34-35 | header line j ends at a newline at or after its start |
| PfmReader.LineWithoutNewline | src/io/PFMReader.java:34-37 | no byte of header line j is a newline |
| PfmReader.Latin1 | src/io/PFMReader.java:33 | each byte becomes one character, so the text is as long as the bytes |
| PfmReader.SpellsLatin1 | src/io/PFMReader.java:33-37 | text built character by character from bytes is their Latin1 text |
| PfmReader.Latin1NoNewline | src/io/PFMReader.java:34-37 | bytes without a newline byte give text without '\n' |
| PfmReader.HeaderSplit | src/io/PFMReader.java:30-38 | three header lines and a body offset inside the input |
| PfmReader.HeaderLinesWithoutNewline | src/io/PFMReader.java:30-38 | no header line contains '\n' |
| PfmReader.HeaderBytes | src/io/PFMReader.java:30-38 | the bytes before the body are exactly the three lines, each with its newline: the body starts right after the third newline |
| PfmReader.LineSlices | src/io/PFMReader.java:32-38 | the bytes of each header line are the slice between two consecutive newlines |
| PfmReader.ThreeLines | src/io/PFMReader.java:32-38 | a prefix ending at the third newline splits into the three lines and their newlines |
| PfmReader.HeaderLines | src/io/PFMReader.java:30-38 | three strings that spell the bytes between the newlines are the header lines |
| PfmReader.ReadingStart | src/io/PFMReader.java:25-30 | the loop state before the first byte: three empty lines, none closed |
| PfmReader.ReadingStep | src/io/PFMReader.java:33-37 | a newline byte closes the current line; any other byte is appended to it |
| PfmReader.ReadingDone | src/io/PFMReader.java:32-38 | once three lines are closed the header and position are those of HeaderSplit |
| PfmReader.ReadHeader | src/io/PFMReader.java:25-38 | the byte-by-byte header loop yields exactly HeaderSplit: the three lines without newlines and the offset after the third newline |
| PfmReader.ContainsOccurrence | src/io/PFMReader.java:45-47 | Contains(s, t) holds exactly when t occurs in s at some position |
| PfmReader.Contains | src/io/PFMReader.java:45-47 | String.contains, tried from each start position; a match needs the pattern to be no longer than the line, and ContainsOccurrence states exactly when it answers true |
| PfmReader.SamplesPerPixel | src/io/PFMReader.java:44-54 | 1 exactly when the line contains "Pf"; otherwise 3 when it contains "PF"; neither is BadMagic |
| PfmReader.IndexOfSpace | src/io/PFMReader.java:57 | the first space of a line that has one |
| PfmReader.Fields | src/io/PFMReader.java:57 | cutting at every space gives at least one field, none holding a space |
| PfmReader.JoinFields | src/io/PFMReader.java:57 | the fields joined by single spaces are the line again |
| PfmReader.FieldsJoin | src/io/PFMReader.java:57 | space-free fields joined by spaces are cut back into the same fields |
| PfmReader.DropTrailingEmpty | src/io/PFMReader.java:57 | a prefix of the fields that ends in a non-empty one and drops only empty fields |
| PfmReader.SplitOnSpace | src/io/PFMReader.java:57 | a line without a space is its own token; otherwise the fields up to the last non-empty one |
| PfmReader.ParseInt | src/io/PFMReader.java:59-60 | a parsed value is a 32-bit int of a non-empty string |
| PfmReader.Decimal | src/io/PFMReader.java:59-60 | a numeral is a non-empty run of decimal digits |
| PfmReader.DecimalValue | src/io/PFMReader.java:59-60 | a numeral's digit value is the number it writes |
| PfmReader.ParseDecimal | src/io/PFMReader.java:59-60 | parseInt reads the decimal numeral of any int in range back exactly |
| PfmReader.ParseSize | src/io/PFMReader.java:56-74 | succeeds exactly when the first two tokens parse as non-negative ints and yields them; otherwise BadSize |
| PfmReader.SizeLineRoundTrip | src/io/PFMReader.java:56-74 | the line "<width> <height>" is read back as exactly (width, height) |
| PfmReader.ParseScale | src/io/PFMReader.java:75-82 | fails with BadScale exactly when parseFloat fails, otherwise yields its value |
| PfmReader.StreamRead | src/io/PFMReader.java:94 | asking for nothing reads 0, an exhausted stream reports -1, otherwise between 1 and the asked and available counts |
| PfmReader.Body | src/io/PFMReader.java:89-97 | a buffer of size bytes: byte k is input byte start+k where that exists, 0 beyond the end |
| PfmReader.ReadBody | src/io/PFMReader.java:89-97 | whatever chunks the stream delivers, the buffer ends as Body and the offset as min(size, available) |
| PfmReader.BigEndianWord | src/io/PFMReader.java:99-103 | a 32-bit word, first byte most significant |
| PfmReader.LittleEndianWord | src/io/PFMReader.java:99-103 | a 32-bit word, first byte least significant |
| PfmReader.LittleIsReversedBig | src/io/PFMReader.java:99-100 | little-endian reading of a group is big-endian reading of the reversed group |
| PfmReader.WordBytesOfWord | src/io/PFMReader.java:99-103 | splitting a big-endian word gives the group back |
| PfmReader.WordOfWordBytes | src/io/PFMReader.java:99-103 | every 32-bit word is the big-endian word of its bytes |
| PfmReader.InverseScale | src/io/PFMReader.java:83 | the float reciprocal of the scale's absolute value; the sign only selects the byte order |
| PfmReader.WordAt | src/io/PFMReader.java:99-103 | the 32-bit word of 4-byte group i; in little-endian order it is the big-endian word of the reversed group |
| PfmReader.SampleOf | src/io/PFMReader.java:101-103 | one sample: the binary32 value of a word times the inverse scale, as a float |
| PfmReader.Samples | src/io/PFMReader.java:101-103 | count samples; sample i is word i of bytes[4i..4i+4] in the selected order, converted and scaled |
| PfmReader.DecodeSamples | src/io/PFMReader.java:99-103 | the cursor loop over 4-byte groups yields exactly Samples |
| PfmReader.BufferHoldsSamples | src/io/PFMReader.java:90-101 | the buffer size width*height*4*samples is 4 bytes for each of samples*width*height samples |
| PfmReader.Decode | src/io/PFMReader.java:22-106 | what read computes, as a value; a decoded image always has a positive width and height, is gray exactly when it holds width*height samples, and otherwise holds 3*width*height |
| PfmReader.DecodeErrors | src/io/PFMReader.java:44-84 | decoding fails at the first unparseable line in the order magic, size, scale; a zero width or height passes the reader and is rejected by construction |
| PfmReader.DecodeImage | src/io/PFMReader.java:83-105 | a well-formed header gives an image of the parsed size, gray exactly when the magic names 1 sample per pixel, with samples*w*h samples read little-endian exactly when the scale is negative |
| PfmReader.Read | src/io/PFMReader.java:22-106 | reading returns exactly Decode of the input: its error, or a fresh valid image with Decode's size, mode and samples |
| Numerics.Abs | src/util/PFMUtil.java:86 | non-negative and equal to x or -x |
| Numerics.Sq | src/util/PFMUtil.java:40 | non-negative |
| Numerics.Truncate | src/io/PFMImage.java:238 | rounds toward zero |
| PfmUtil.Expanded | src/io/PFMImage.java:156-171 | getColorAt over every pixel in scan order: three channels per pixel, a gray sample repeated three times |
| PfmUtil.ColorsOf | src/util/PFMUtil.java:34-35 | the colors of the whole image, three per pixel, as MSE and difference read them through getColorAt |
| PfmUtil.ColorAtPixel | src/util/PFMUtil.java:34-35 | getColorAt(x,y) is the triple of scan pixel y*width+x in the colors of the whole image |
| PfmUtil.GrayChannels | src/io/PFMImage.java:163-166 | the colors of a gray pixel are its sample three times |
| PfmUtil.MeanSquaredError | src/util/PFMUtil.java:29-49 | the value MSE returns: the squared channel differences of all pixels, summed, over width*height; its properties are MseNonNegative, MseSelf, MseSymmetric, MseZero and MseGray |
| PfmUtil.MSE | src/util/PFMUtil.java:22-50 | fails with SizeMismatch exactly when the sizes differ; otherwise the sum of squared channel differences divided by width*height |
| PfmUtil.TotalSquaredError | src/util/PFMUtil.java:29-44 | the loop over rows accumulates the squared differences of all channels of all pixels |
| PfmUtil.AddRowErrors | src/util/PFMUtil.java:33-43 | one row adds the squared differences of its pixels |
| PfmUtil.AddPixelError | src/util/PFMUtil.java:34-42 | one pixel adds the squared differences of its three getColorAt channels |
| PfmUtil.AddChannelErrors | src/util/PFMUtil.java:37-42 | the channel loop adds three squared differences |
| PfmUtil.SquaredDiffs | src/util/PFMUtil.java:37-41 | the accumulated squared channel differences of the first n channels; SquaredDiffsNonNegative, SquaredDiffsSelf, SquaredDiffsSymmetric and SquaredDiffsZero state its properties |
| PfmUtil.SquaredDiffsNonNegative | src/util/PFMUtil.java:37-41 | a sum of squared differences is never negative |
| PfmUtil.MseNonNegative | src/util/PFMUtil.java:37-49 | MSE >= 0 |
| PfmUtil.SquaredDiffsSelf | src/util/PFMUtil.java:37-41 | each channel compared with itself adds 0 |
| PfmUtil.MseSelf | src/util/PFMUtil.java:37-49 | MSE(a, a) == 0 |
| PfmUtil.SquaredDiffsSymmetric | src/util/PFMUtil.java:37-41 | swapping the images changes no squared difference |
| PfmUtil.MseSymmetric | src/util/PFMUtil.java:37-49 | MSE(a, b) == MSE(b, a) |
| PfmUtil.SqZero | src/util/PFMUtil.java:40 | a square is 0 exactly at 0 |
| PfmUtil.SqPositive | src/util/PFMUtil.java:40 | a nonzero difference squares to a positive value |
| PfmUtil.SquaredDiffsZero | src/util/PFMUtil.java:37-41 | the sum is 0 exactly when all channels agree |
| PfmUtil.MseZero | src/util/PFMUtil.java:32-49 | MSE is 0 exactly when both images show the same colors at every pixel |
| PfmUtil.GrayTriples | src/util/PFMUtil.java:34-41 | with gray colors each squared sample difference is counted three times |
| PfmUtil.RepeatedChannel | src/util/PFMUtil.java:37-41 | three equal channel pairs add three times their squared difference |
| PfmUtil.MseGray | src/util/PFMUtil.java:32-49 | MSE of two gray images is 3 * (sum of squared sample differences) / (width*height) |
| PfmUtil.ScaledDiff | src/util/PFMUtil.java:86 | one stored sample, scale * abs(c1[i] - c2[i]); never negative when the scale is not |
| PfmUtil.Zeros | src/util/PFMUtil.java:76 | the fresh float array: n zeros |
| PfmUtil.DifferenceSamples | src/util/PFMUtil.java:74-87 | the array difference fills: zeros with every row's scaled channel differences written at the given row stride, three samples per pixel; its content is stated by DifferenceRowMajorContent, WideLosesLastSample and DifferenceSelf |
| PfmUtil.DifferenceWithStride | src/util/PFMUtil.java:68-90 | SizeMismatch for different sizes; IndexOutOfBounds exactly when the rows overflow the array; otherwise a fresh color image of the same size holding DifferenceSamples |
| PfmUtil.FillDifference | src/util/PFMUtil.java:79-87 | the row loop succeeds exactly when every row fits and then leaves DifferenceSamples in the array |
| PfmUtil.DiffRow | src/util/PFMUtil.java:80-87 | one row succeeds exactly when its last pixel fits and writes RowDiffs |
| PfmUtil.DiffPixel | src/util/PFMUtil.java:81-86 | one pixel writes its three scaled channel differences at 3*(stride*y+x), failing exactly when they do not fit |
| PfmUtil.StoreChannels | src/util/PFMUtil.java:85-86 | the channel loop writes three slots and fails at the first store past the end |
| PfmUtil.StoredPixel | src/util/PFMUtil.java:81-86 | storing getColorAt's channels is writing the colors of scan pixel y*width+x |
| PfmUtil.SlotIndex | src/util/PFMUtil.java:83 | the index 3*(stride*y + x) is the slot of pixel (x,y) in the row model |
| PfmUtil.Difference | src/util/PFMUtil.java:68-90 | as written (stride height): SizeMismatch, or IndexOutOfBounds exactly when height > width, or a fresh color image of the same size holding DifferenceSamples with stride height |
| PfmUtil.DifferenceUnscaled | src/util/PFMUtil.java:58-60 | the two-argument difference is the three-argument one with scale 1 |
| PfmUtil.AsWrittenFits | src/util/PFMUtil.java:74-86 | with height as stride the rows fit the array exactly when height <= width |
| PfmUtil.WideLosesLastSample | src/util/PFMUtil.java:76-86 | for 2 <= height < width the last sample of the result is never written and stays 0 |
| PfmUtil.LastSlotUnreached | src/util/PFMUtil.java:83 | for 2 <= height < width the furthest slot written lies before the last one |
| PfmUtil.DiffsUntouched | src/util/PFMUtil.java:79-87 | the rows leave every slot past the last written one as it was |
| PfmUtil.AsWrittenDiffers | src/util/PFMUtil.java:83 | for 2 <= height < width, a nonzero scale and differing last channels, the result as written differs from the corrected one |
| PfmUtil.AsWrittenAgrees | src/util/PFMUtil.java:83 | for a single row or a square image the result as written equals the corrected one |
| PfmUtil.SingleRowStrideFree | src/util/PFMUtil.java:83 | the first row is written the same whatever the stride |
| PfmUtil.DifferenceRowMajor | src/util/PFMUtil.java:68-90 | corrected (stride width): fails only with SizeMismatch; sample k of the fresh color image is scale * abs(difference of channel k of the colors) |
| PfmUtil.RowMajorFits | src/util/PFMUtil.java:74-86 | with width as stride the rows of any image fit its array |
| PfmUtil.RowMajorRows | src/util/PFMUtil.java:79-86 | with width as stride the first m rows hold the scaled channel differences of their own pixels and leave the rest as it was |
| PfmUtil.DifferenceRowMajorContent | src/util/PFMUtil.java:79-86 | corrected: sample k of the difference is scale * abs(difference of channel k) |
| PfmUtil.DiffsPreserve | src/util/PFMUtil.java:86 | a property that zero and every scaled channel difference share holds of all samples |
| PfmUtil.DifferenceSelf | src/util/PFMUtil.java:79-86 | the difference of an image with itself is all zeros, for any stride under which the rows fit |
| PfmUtil.DifferenceNonNegative | src/util/PFMUtil.java:86 | with a non-negative scale no sample of the difference is negative |

## Left out

- Floating-point rounding. Samples are exact reals. `Math.pow`, the `(float)` casts, `Float.parseFloat`, `1.f / |scale|` and the bits-to-float conversion are uninterpreted parameters. NaN and infinities, and NaN comparisons in the min/max scan, are not modelled.
- `Math.abs(c1[i] - c2[i])` and `scale * ...` in `difference` round to float in the source. In the model they are exact.
- `PfmUtil.MSE`: BigDecimal behaviour is not modelled. The model uses exact real arithmetic, so it does not capture the two points where the source throws:
  - `setScale(100)` without a rounding mode, on an inexact value;
  - `divide` without a `MathContext`, when the quotient does not terminate in decimal.
- The final `doubleValue()` conversion of MSE is left out.
- Java `int` overflow in `width*height`, `3*resolution`, `width*height*4*samples` and the sample indices is left out; integers are unbounded.
- Header EOF. At the end of the stream, `(char) reader.read()` is `'\uffff'` (Java's `(char) -1`), so the header loop never ends. `PfmReader.ReadHeader`, `PfmReader.Decode` and `PfmReader.Read` instead require `HasHeader`: at least three newline bytes in the input.
- File handling. `FileInputStream`, `close()` and the `File` argument are left out: the input is the file's bytes. The division of the input into partial reads is a parameter.
- The construction-error path with the malformed `"%i"` format string is left out. It throws a different exception in the source; the model treats it as the ordinary `SampleCountMismatch` error.
- `BufferedImage` is a `width x height` array of RGBA quads. The Swing viewer, the `PFMMSE` main and the JUnit harness are not part of this model.
- `gamma == 0` (an infinite exponent) and a zero scale (an infinite reciprocal) have no real value. The converters require `gamma != 0`, and the reciprocal of 0 is whatever the abstract `reciprocal` gives.
- `PfmUtil.DifferenceRowMajorContent` states the value of each slot. It does not separately state that each slot is written exactly once.
- `PfmUtil.Difference`: when height > width, the source throws partway through its loops, after some stores. The model returns `IndexOutOfBounds` and does not describe the partly filled array, which the caller never sees.

## Findings

| source | as written | input that shows it | evidently intended | confidence | as-written member | corrected member |
|---|---|---|---|---|---|---|
| src/util/PFMUtil.java:83 | pixel (x,y) is stored at `3*(height*y + x)` | `height > width`: from row `y = width` on the stores run past the `3*width*height` array, and the first such store throws (with `width = 1`, `height = 3` at row 1). `2 <= height < width`: rows overlap, and the last sample is never written, so it stays 0 even when the images differ there | `3*(width*y + x)`: row-major, matching `getColorAt`, so every image pair of equal size succeeds and sample k is `scale*abs(c1[k]-c2[k])` | not executed | PfmUtil.Difference, PfmUtil.AsWrittenFits, PfmUtil.WideLosesLastSample, PfmUtil.AsWrittenDiffers | PfmUtil.DifferenceRowMajor, PfmUtil.DifferenceRowMajorContent |
| src/io/PFMImage.java:223-234 | the power pass, the min/max scan and the normalisation run over `width*height` samples | any color image: pixels i with `3i >= width*height` read working-array entries that stay 0 and show black. With the last sample as a strict maximum, the last pixel's blue is 0 instead of 255 | run over all `nbOfFloats()` samples, so that every channel is normalised into [0,1] | not executed | PfmImage.PFMImage.ToScaledBufferedImage, PfmImage.ColorTailDark, PfmImage.ScaledTailDiffers | PfmImage.PFMImage.ToScaledBufferedImageAll, PfmImage.NormalizedAllSamples, PfmImage.NormalizedInUnit |
