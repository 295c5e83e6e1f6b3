# visual-rbm core in Dafny

This project models the data-handling core of visual-rbm, a toolkit for training restricted Boltzmann machines (RBMs) and multilayer perceptrons (MLPs), and proves properties of that model. The parts modelled are:

- **IDX containers.** These are row-oriented, multi-dimensional binary data sets. Three implementations are modelled:
  - the C# `IDX` class (`trunk/helpers/IDX.cs`);
  - the C++ `IDX` class of OMLT (`source/OMLT/OMLT/include/IDX.hpp`);
  - the Python `IDX` class (`helpers/IDX.py`).
  
  Each covers header parsing and writing, row geometry, random-access row reads and writes, and appending rows. Shared pieces are the byte codec (`Bytes`) and the data formats (`IdxFormat`). A value view of a loaded file (`IdxTable`) is used by the command-line tools.
- **The `.RBM` model file and its CPU inference.** The C# `RBM` class (`trunk/helpers/RBM.cs`) loads the model, keeps both weight layouts, and computes with the quantised sigmoid and softplus tables: hidden and visible activations, sampled states and free energy. The C++ reader and writer (`helpers/RBM.hpp`) are modelled too.
- **cppJSONStream.** These are the streaming JSON reader and writer (`trunk/extern/cppJSONStream`). The loaders see the reader's output as a list of tokens (`JsonItems`).
- **OMLT models and schedules.**
  - Activation function names (`Enums`).
  - MLP construction, `AddLayer` and both JSON loaders and writers (`Mlp`).
  - RBM JSON loaders and writers (`RbmJson`).
  - `TrainingSchedule` stepping (`Schedule`) and contrastive-divergence schedule validation (`CdSchedule`).
  - `MovingAverage` and `ConfusionMatrix`.
  - The aligned memory blocks of OMLT (`OmltCommon`) and of QuickBoltzmannNative (`NativeCommon`, which also holds the in-place shuffle).
- **Command-line tools.**
  - `csv2idx`: the float parser, read_line and the line conversion.
  - `shuffleidx`, `splitidx` and `catidx`.
  - Argument handling of `cltrain` (including its data-atlas partitioning), of `buildmlp` and of `clrbm`.
  - The `clrbm` parameter-file reader: the line filter and the key table (`ParameterFile`).
- **VisualRBM settings helpers** (`trunk/source/VisualRBM/VisualRBM/SettingsBar.cs`):
  - the integer square root and the image size it gives, and the text-box rules (`SettingsBar`);
  - the tool-tip word wrapping (`ToolTip`);
  - the parameter-file line checks (`ParameterDialog`).

Files and streams are byte sequences. Opening a file, loading a data set and `sscanf`-style number parsing are parameters: an `Option` result per file or string. Random draws, `exp`, `ln` and the float bit-pattern conversion are function parameters.

Where the source works by changing state, the model is a class that updates fields: the IDX objects, the RBM buffers, the JSON reader and writer, the schedules, the moving average, the confusion matrix, the memory blocks and the MLP vector of layers. Each such method is proved against a specification function on values. Loops in the source are `while` loops with invariants. Pure code is functions and lemmas.

Where the source's comments, usage texts or headers disagree with its code, the model follows the code:

- The csv2idx comment describes a float regular expression. The code accepts "", "+", "1." and "1e", and refuses ".5"; the model accepts the same.
- The catidx usage text says one or more inputs, but the code needs at least two.
- `Enums.h` (source/OMLT/OMLT/include/Enums.h:21-33) declares Linear, RectifiedLinear, Sigmoid and Count, so Count is 3 there. `Enums.cpp` names four functions (Linear, RectifiedLinear, Sigmoid, Softmax), and its search covers all four; the model follows `Enums.cpp`, with Count 4. This also decides the cJSON loaders and the schedule loader, whose type loops stop at `ActivationFunction::Count` (MultilayerPerceptron.cpp:187, RestrictedBoltzmannMachine.cpp:182, TrainingSchedule.cpp:37): with the header as shipped they refuse "Softmax", while Mlp.FromDocument, RbmJson.LookupLast, RbmJson.DocumentHeader and CdSchedule.Accepts accept it. Count 4 is taken because trunk code names `ActivationFunction::Softmax` (trunk/source/OMLT/OMLT/source/AutoEncoderBackPropagation.cpp:126), which the 3-entry header does not declare.
- In clrbm, an absent `print_interval` takes 500, while the file written by `-defaults` says 100. The model keeps both values.

## Model

| member | source | states |
|---|---|---|
| Bytes.Zeros | source/OMLT/OMLT/include/IDX.hpp:61 | the zero-filled buffer of n bytes (calloc'd rows, memset memory) has n bytes, all 0 |
| Bytes.ReverseAt | source/OMLT/OMLT/include/IDX.hpp:100-105 | byte i of the reversed image is byte size - 1 - i of the original, as the fgetc loop from sizeof(T) - 1 down to 0 stores it |
| Bytes.ReverseReverse | source/OMLT/OMLT/include/IDX.hpp:100-146 | reversing twice gives the bytes back, so the swapping read undoes the swapping write |
| Bytes.DecodeLE | source/OMLT/OMLT/include/IDX.hpp:96-110 | a w-byte value read least significant byte first is below 256^w |
| Bytes.DecodeEncodeLE | source/OMLT/OMLT/include/IDX.hpp:96-151 | decoding the w-byte little-endian image of a value below 256^w gives the value back |
| Bytes.EncodeDecodeLE | source/OMLT/OMLT/include/IDX.hpp:96-151 | encoding the value of a byte string gives the byte string back |
| Bytes.Decode | source/OMLT/OMLT/include/IDX.hpp:96-110 | the value of bytes stored in either byte order is below 256^w |
| Bytes.DecodeEncode | source/OMLT/OMLT/include/IDX.hpp:96-151 | in either byte order, reading what write put out gives the value back |
| Bytes.EncodeDecode | source/OMLT/OMLT/include/IDX.hpp:96-151 | in either byte order, writing what read took in gives the same bytes |
| Bytes.SwapRule | source/OMLT/OMLT/include/IDX.hpp:96-110 | taking the bytes in file order, or reversed when the file's byte order is not the machine's, and reading them in the machine's order gives the value the file's byte order denotes |
| Bytes.SwapRuleWrite | source/OMLT/OMLT/include/IDX.hpp:136-151 | the machine image of a value, reversed when the orders differ, is the value's image in the file's byte order |
| Bytes.EncodeCells | source/OMLT/OMLT/include/IDX.hpp:153-175 | a row of n cells written by write_row takes n * w bytes |
| Bytes.DecodeCells | source/OMLT/OMLT/include/IDX.hpp:112-133 | read_row gives n cells, each below 256^w |
| Bytes.DecodeEncodeCells | source/OMLT/OMLT/include/IDX.hpp:112-175 | read_row of what write_row wrote gives the row back |
| Bytes.EncodeDecodeCells | source/OMLT/OMLT/include/IDX.hpp:112-175 | write_row of what read_row read gives the same bytes |
| Bytes.DecodeCellsSnoc | source/OMLT/OMLT/include/IDX.hpp:121-126 | one more w-byte image read appends one more cell |
| Bytes.EncodeCellsSnoc | source/OMLT/OMLT/include/IDX.hpp:161-168 | one more cell written appends its w-byte image |
| Bytes.ZerosAdd | source/OMLT/OMLT/include/IDX.hpp:420-436 | writing a zero rows and then b zero rows writes a + b zero rows |
| Bytes.Splice | source/OMLT/OMLT/include/IDX.hpp:530-533 | a write of b at a seek position puts b there, leaves every other byte as it was, and reads a gap past the old end as zeros |
| Bytes.SpliceInside | source/OMLT/OMLT/include/IDX.hpp:530-533 | a write inside the file keeps its length and the bytes around the write |
| Bytes.SpliceAtEnd | source/OMLT/OMLT/include/IDX.hpp:420-436 | a write at the end of the file appends |
| IdxFormat.ParseFormat | source/OMLT/OMLT/include/IDX.hpp:235-250 | a header byte names a format exactly when it is one of 0x08, 0x09, 0x0B, 0x0C, 0x0D, 0x0E, and the format named has that code; any other byte is a parse error |
| IdxFormat.ParseFormatCode | source/OMLT/OMLT/include/IDX.hpp:235-250 | the code of every format parses back to that format |
| IdxFormat.Width | source/OMLT/OMLT/include/IDX.hpp:269-286 | a cell takes 1, 2, 4 or 8 bytes: 1 exactly for UInt8 and SInt8, 8 exactly for Double |
| IdxFormat.ParseMarker | source/OMLT/OMLT/include/IDX.hpp:220-231 | the two marker bytes name big-endian exactly when they read as 0x0000 and little-endian exactly when they read as 0xFFFF, in either byte order; anything else is a parse error |
| IdxFormat.MarkerBytes | source/OMLT/OMLT/include/IDX.hpp:73 | the marker written takes two bytes |
| IdxFormat.ParseMarkerBytes | source/OMLT/OMLT/include/IDX.hpp:220-231 | the marker written for either byte order parses back to it |
| IdxFormat.Product32IsProductMod | source/OMLT/OMLT/include/IDX.hpp:261-266 | a uint32 product multiplied one dimension at a time, wrapping at each step, is the exact product modulo 2^32 |
| IdxFormat.Product32Snoc | source/OMLT/OMLT/include/IDX.hpp:263-266 | one more loop step multiplies the running uint32 product by the next dimension |
| IdxFormat.RowLengthOf | source/OMLT/OMLT/include/IDX.hpp:261-373 | the row-length loop gives the product of the dimensions modulo 2^32 |
| IdxFormat.ProductPositive | source/OMLT/OMLT/include/IDX.hpp:369-373 | a product of positive dimensions is positive |
| IdxFormat.HeaderBytes | source/OMLT/OMLT/include/IDX.hpp:63-80 | the header written has HeaderSize = 2 + 1 + 1 + 4 * dimension count bytes |
| IdxFormat.WriteHeader | source/OMLT/OMLT/include/IDX.hpp:68-80 | writing the marker, the format code, the dimension count and each dimension through write<T> gives the header image in the file's byte order, whatever the machine's byte order |
| IdxFormat.U32Cells | source/OMLT/OMLT/include/IDX.hpp:256-259 | dimensions read as 4-byte values fit a uint32 |
| IdxFormat.RowInside | source/OMLT/OMLT/include/IDX.hpp:289-295 | in a file of exactly header + rows * row bytes, every row below rows lies wholly inside the file |
| IdxFormat.CellImage | source/OMLT/OMLT/include/IDX.hpp:136-151 | one cell written through write<T> (reversed when the byte orders differ) is the cell's image in the file's byte order |
| IdxFormat.CellValue | source/OMLT/OMLT/include/IDX.hpp:96-110 | one cell read through read<T> (reversed when the byte orders differ) has the value the file's byte order gives its bytes |
| IdxFormat.ReadCells | source/OMLT/OMLT/include/IDX.hpp:112-133 | the read_row loop gives the n cells stored from the position with the file's byte order |
| IdxFormat.CellsImage | source/OMLT/OMLT/include/IDX.hpp:153-175 | the write_row loop gives the row's image in the file's byte order |
| IdxFormat.RowRoundTrip | source/OMLT/OMLT/include/IDX.hpp:490-571 | a row written at a position reads back unchanged from that position |
| IdxFormat.CellInRow | source/OMLT/OMLT/include/IDX.hpp:121-126 | cell k of a row of n cells ends within the row |
| IdxTable.FlatConsistent | trunk/source/Tools/shuffleidx/shuffleidx.cpp:48-83 | the file that Create with one row dimension and a run of AddRow calls leave behind has a row count matching its rows, each of the row length |
| IdxCs.EndiannessAsWrittenRejectsLittle | trunk/helpers/IDX.cs:119-121 | the read constructor's 255 * b0 + b1 passes its endianness assert only for the bytes 00 00; the little-endian marker FF FF decodes to 65280, which is neither Endianness value |
| IdxCs.EndiannessAsWritten | trunk/helpers/IDX.cs:119-121 | definition only: the marker as the read constructor decodes it, 255 * b0 + b1; IdxCs.EndiannessAsWrittenRejectsLittle states what follows from it |
| IdxCs.EndiannessMarkers | trunk/helpers/IDX.cs:215-225 | decoded as 256 * b0 + b1 the marker is a valid Endianness exactly for the two markers the writer emits, and means the byte order they stand for |
| IdxCs.CellFactor | trunk/helpers/IDX.cs:139-156 | for a known format code the row-bytes factor is that format's cell width; an unknown code leaves the row length unmultiplied |
| IdxCs.ReadUInt32 | trunk/helpers/IDX.cs:48-70 | the value read is the four bytes decoded in the file's byte order, whatever the machine's order |
| IdxCs.WriteUInt32 | trunk/helpers/IDX.cs:82-100 | the four bytes written are the value encoded in the file's byte order, whatever the machine's order |
| IdxCs.ReadWriteUInt32 | trunk/helpers/IDX.cs:48-100 | a uint32 written by WriteUInt32 reads back by ReadUInt32 as the same value |
| IdxCs.HeaderCells | trunk/helpers/IDX.cs:231-236 | the header's dimension cells are a row count of 0 followed by the row dimensions |
| IdxCs.HeaderImage | trunk/helpers/IDX.cs:213-238 | the header written for n row dimensions is 8 + 4n bytes long |
| IdxCs.ParseHeader | trunk/helpers/IDX.cs:119-159 | corrected (marker decoded as 256 * b0 + b1): the parsed header has as many dimensions as the dimension byte says, and its size is 4 + 4 per dimension |
| IdxCs.ParseHeaderFields | trunk/helpers/IDX.cs:126-137 | the parsed dimensions are the cells after the first four bytes in the file's byte order, and the row length is their uint32 product past the row count |
| IdxCs.HeaderImageBytes | trunk/helpers/IDX.cs:215-236 | a written header holds, in order, the endianness marker, the format, 1 + the number of row dimensions, and the encoded cells |
| IdxCs.ParseHeaderImage | trunk/helpers/IDX.cs:105-239 | reading back a header the write constructor emitted, followed by anything, gives the writer's endianness, format, dimensions with a row count of 0, the same row length and the same header size |
| IdxCs.ReadDimensions | trunk/helpers/IDX.cs:129-137 | the loop reads the row count as the first dimension and leaves the row length as the uint32 product of the remaining dimensions |
| IdxCs.WriteCsHeader | trunk/helpers/IDX.cs:213-236 | the bytes written are exactly the header image: marker, format, dimension count, zero row count, dimensions |
| IdxCs.Idx.Read | trunk/helpers/IDX.cs:105-160 | corrected (marker decoded as 256 * b0 + b1): the read constructor's fields are those of the parsed header: endianness, format, row count, row length, row bytes and header size |
| IdxCs.Idx.Create | trunk/helpers/IDX.cs:163-239 | the write constructor stores the arguments, a row count of 0, the uint32 row length and row bytes, and puts the header image at the start of the stream |
| IdxCs.Idx.AddRow | trunk/helpers/IDX.cs:268-280 | writes row-bytes zero bytes where row `rows` begins, returns the old row count and adds one to it |
| IdxCs.Idx.AddRowsAsWritten | trunk/helpers/IDX.cs:282-297 | as written: writes count * row length zero bytes (one byte per cell, whatever the format) and adds count to the row count |
| IdxCs.Idx.AddRows | trunk/helpers/IDX.cs:282-297 | corrected: writes count * row bytes zero bytes, as AddRow does per row, and adds count to the row count |
| IdxCs.Idx.ReadRow | trunk/helpers/IDX.cs:300-425 | for the byte, sbyte, short, int and float overloads: the cells are the row's bytes at header + row bytes * index decoded in the file's byte order |
| IdxCs.Idx.RowImage | trunk/helpers/IDX.cs:488-650 | the bytes a WriteRow overload emits are the cells encoded in the file's byte order |
| IdxCs.Idx.WriteRowAsWritten | trunk/helpers/IDX.cs:475-650 | as written: the byte overload writes at row `rows` instead of `index`, and the byte and float overloads add one to the row count |
| IdxCs.Idx.WriteRow | trunk/helpers/IDX.cs:488-650 | corrected: overwrites row `index` with the encoded cells and leaves the row count alone |
| IdxCs.AddRowsAsWrittenTruncates | trunk/helpers/IDX.cs:282-297 | for a one-row SInt32 file the as-written AddRows leaves the stream shorter than header + row bytes, while the corrected one reaches it |
| IdxCs.WriteRowAsWrittenCountsRow | trunk/helpers/IDX.cs:485-609 | after rewriting row 0 of a one-row file, the as-written byte and float overloads claim two rows; the other overloads keep one |
| IdxCpp.LoadRejectsBadHeader | source/OMLT/OMLT/include/IDX.hpp:220-250 | Load returns NULL for a marker other than 00 00 or FF FF and for an unknown format byte |
| IdxCpp.LoadAccepted | source/OMLT/OMLT/include/IDX.hpp:252-295 | a header Load accepts has 1 to 255 uint32 dimensions (a count of 0, undefined in the source, is rejected), is the file's first HeaderSize bytes, and the rest of the file is exactly row count * row bytes |
| IdxCpp.LoadHeaderBytes | source/OMLT/OMLT/include/IDX.hpp:220-295 | a written header followed by row data loads back as that header, exactly when the data is row count whole rows of GetRowLengthBytes each |
| IdxCpp.CloseThenLoad | source/OMLT/OMLT/include/IDX.hpp:574-590 | closing a file opened for writing and loading it again gives back every header field, the row count included |
| IdxCpp.WriteThenReadRow | source/OMLT/OMLT/include/IDX.hpp:490-571 | a row written over its bytes reads back as the same cells |
| IdxCpp.OverflowTest | source/OMLT/OMLT/include/IDX.hpp:417-454 | the uint32 overflow test count + rows < rows holds exactly when the exact sum reaches 2^32 |
| IdxCpp.Idx.Init | source/OMLT/OMLT/include/IDX.hpp:82-92 | the new container holds the given file, header fields, geometry and mode, whether its stream can be read, and is open |
| IdxCpp.Idx.Load | source/OMLT/OMLT/include/IDX.hpp:202-306 | Load returns NULL exactly when the file cannot be opened or its header is rejected (bad marker, bad format, size not header + rows * row bytes, or a dimension count of 0, where the source reads the row count from a zero-sized allocation); otherwise a new open container with the file's header, the geometry it implies and the requested mode, whose stream ("rb" or "rb+") can be read |
| IdxCpp.Idx.Create | source/OMLT/OMLT/include/IDX.hpp:313-403 | Create returns NULL exactly when the file cannot be opened, the endianness is neither BigEndian nor LittleEndian, the format code is unknown, or the uint8 dimension count (row dimensions + 1, wrapping) is 0; otherwise the file is the header with dimensions 0 followed by the row dimensions that count keeps, the row length is their uint32 product, and below 255 row dimensions the container is valid and keeps them all; the stream is opened "wb", so it cannot be read |
| IdxCpp.StoredCount | source/OMLT/OMLT/include/IDX.hpp:359 | the dimension count stored in the uint8 header byte is below 256 and equals row dimensions + 1 exactly when there are fewer than 255 row dimensions |
| IdxCpp.Idx.AddRows | source/OMLT/OMLT/include/IDX.hpp:410-440 | fails and changes nothing when not writing or when the row count would wrap; otherwise appends count zeroed rows and adds count to the row count, keeping the file size equal to header + rows * row bytes |
| IdxCpp.Idx.AddRow | source/OMLT/OMLT/include/IDX.hpp:405-408 | AddRow() is AddRows(1): one zeroed row more, under the same conditions |
| IdxCpp.Idx.AddRowFrom | source/OMLT/OMLT/include/IDX.hpp:442-488 | fails and changes nothing when not writing or when the row count would wrap; otherwise appends the row's image in the file's byte order and the row count grows by one |
| IdxCpp.Idx.WriteRow | source/OMLT/OMLT/include/IDX.hpp:490-534 | fails and changes nothing when not writing or when the row is not below the count; otherwise overwrites exactly that row's bytes at HeaderSize + row * row bytes with its image |
| IdxCpp.Idx.ReadRow | source/OMLT/OMLT/include/IDX.hpp:537-571 | fails for a row at or past the count, leaving the buffer as it was; otherwise, on a stream that can be read, gives the cells stored at HeaderSize + row * row bytes, decoded with the file's byte order; on a stream opened by Create ("wb") nothing is read: fread leaves the buffer as it was, and the byte-swapping path stores fgetc's EOF bytes, every cell all ones |
| IdxCpp.EofCells | source/OMLT/OMLT/include/IDX.hpp:116-125 | the byte-swapping loop of read_row on a stream that cannot be read gives row_length cells of all-ones bytes |
| IdxCpp.AllOnes | source/OMLT/OMLT/include/IDX.hpp:120-124 | w bytes of 0xFF decode to 256^w - 1 |
| IdxCpp.Idx.Close | source/OMLT/OMLT/include/IDX.hpp:574-590 | when writing, the header bytes are rewritten with the current row count and the rows are kept; when reading the file is unchanged; the file is closed either way |
| IdxCpp.ReadHeader | source/OMLT/OMLT/include/IDX.hpp:220-295 | the header parse of Load, field by field, accepts exactly the headers LoadHeader does and computes the row length as the uint32 product of the row dimensions |
| IdxCpp.EmptyRows | source/OMLT/OMLT/include/IDX.hpp:429-433 | count iterations of writing one empty row give count * row bytes zero bytes |
| IdxPy.LoadRejectsBadHeader | helpers/IDX.py:76-103 | `load` returns None for an endianness other than 0x0000 or 0xFFFF and for an unknown format byte |
| IdxPy.LoadChecksSize | helpers/IDX.py:125-134 | a file `load` accepts measures exactly the header size plus the row count times the row bytes |
| IdxPy.LoadStored | helpers/IDX.py:67-139 | a file `load` accepts stores the header it returns: marker, format, dimension count, row dimensions and whole rows |
| IdxPy.CloseThenLoad | helpers/IDX.py:54-139 | writing the row count at offset 4 of a stored file, as `close` does, gives a file `load` reads back as the same header |
| IdxPy.RestoredHeader | helpers/IDX.py:54-63 | a stored file with its row count rewritten is the complete header followed by the rows |
| IdxPy.LoadHeaderBytes | helpers/IDX.py:67-139 | a header as `create` writes it, followed by row data, loads back as that header exactly when the data is row count whole rows |
| IdxPy.UncountedRowBreaksFile | helpers/IDX.py:256-262 | a file `load` accepts no longer loads once a row is appended without being counted |
| IdxPy.Idx.Init | helpers/IDX.py:22-30 | the new object holds the file, writability, header, row length and row bytes it is given, with the file open |
| IdxPy.Idx.Load | helpers/IDX.py:65-142 | None exactly when the file cannot be opened or its header is rejected (bad marker, bad format, short header, no dimensions, size not header + rows * row bytes); otherwise an open object whose header is the one the file stores, its dimensions held as a tuple |
| IdxPy.Idx.Create | helpers/IDX.py:144-221 | None exactly when the file cannot be opened, the endianness or format is invalid, or a header field does not fit its struct code (more than 254 row dimensions, a dimension outside uint32); otherwise a writable object whose file is the header with row count 0 |
| IdxPy.Idx.ReadRow | helpers/IDX.py:228-242 | None exactly for an index below 0 or at or past the row count; otherwise the cells stored at header + row bytes * index, decoded in the file's byte order |
| IdxPy.Idx.AddRowAsWritten | helpers/IDX.py:244-264 | as written: False when not writable or the row has the wrong length; struct.error, with nothing written, when a cell does not fit the cell width; after `load` the row is written and then the tuple increment raises TypeError, leaving it uncounted; after `create` the row is appended and counted; it never returns None |
| IdxPy.Idx.AddRow | helpers/IDX.py:244-264 | corrected: False and no change when not writable or the row has the wrong length; struct.error and no change when a cell does not fit the cell width; otherwise the encoded row is appended, the count grows by one and the file stays well formed |
| IdxPy.Idx.WriteRow | helpers/IDX.py:266-285 | False and no change when not writable, for an index outside the rows, or for a row of the wrong length; struct.error and no change when a cell does not fit the cell width; otherwise None, and only that row's bytes are replaced by the encoded cells |
| IdxPy.Idx.Close | helpers/IDX.py:53-63 | when open and writable, the row count is written at byte offset 4 and nothing else changes, and the file is closed; a row count of 2^32 or more makes struct.pack raise struct.error first, leaving the file open and unchanged |
| IdxPy.ReadHeader | helpers/IDX.py:76-134 | the header parse of `load` accepts exactly the headers LoadHeader does and computes the row length as the exact product of the row dimensions |
| IdxPy.ExactRowLength | helpers/IDX.py:112-114 | the loop computes the exact product of dimensions 1 .. n - 1 |
| IdxPy.DimsFit | helpers/IDX.py:209-210 | true exactly when every dimension packs as a uint32 |
| IdxPy.NewFileStored | helpers/IDX.py:205-213 | a freshly created file, header only, is well formed with row count 0 |
| IdxPy.AppendRowStored | helpers/IDX.py:256-262 | appending one row and counting it keeps the file well formed |
| IdxPy.OverwriteRowStored | helpers/IDX.py:280-285 | overwriting a row inside the data keeps the file well formed |
| RbmCs.TableIndexInRange | trunk/helpers/RBM.cs:63-120 | a positive argument below 15 is looked up at an index inside the 2048-entry table |
| RbmCs.LogisticRange | trunk/helpers/RBM.cs:51-52 | with a positive exponential each sigmoid table entry lies strictly between 0 and 1 |
| RbmCs.BuildSigmoidTable | trunk/helpers/RBM.cs:41-54 | the static constructor fills 2048 entries per half: pos[k] = 1/(1+e^(-k/s)), neg[k] = 1/(1+e^(k/s)) with s = 2047/15 |
| RbmCs.BuildSoftplusTable | trunk/helpers/RBM.cs:94-107 | the static constructor fills 2048 entries per half: pos[k] = ln(1+e^(k/s)), neg[k] = ln(1+e^(-k/s)) |
| RbmCs.SigmoidCalc | trunk/helpers/RBM.cs:56-73 | Sigmoid.Calc is 0 at or below -15, 1 at or above 15 and 0.5 at 0 |
| RbmCs.SoftplusCalc | trunk/helpers/RBM.cs:109-127 | LnOnePlusExp.Calc is 0 at or below -15, the identity at or above 15 and ln 2 at 0 |
| RbmCs.SigmoidCalcRange | trunk/helpers/RBM.cs:41-73 | once its table is built, Sigmoid.Calc always returns a probability between 0 and 1 |
| RbmCs.SoftplusCalcNonNegative | trunk/helpers/RBM.cs:94-127 | once its table is built, LnOnePlusExp.Calc never returns a negative value |
| RbmCs.TransposedDot | trunk/helpers/RBM.cs:294-331 | a row of the transposed weights dotted with a vector equals the matching column of the stored weights dotted with it |
| RbmCs.DistanceSquaresNonNegative | trunk/helpers/RBM.cs:431-437 | the Gaussian visible term, a sum of squares (v_i - b_i)^2, is never negative |
| RbmCs.DistanceSquaresAtBiases | trunk/helpers/RBM.cs:431-437 | the Gaussian visible term vanishes when the input equals the biases |
| RbmCs.ProductSquaresAtBiases | trunk/helpers/RBM.cs:432-436 | as written the Linear term (b_i * v_i)^2 is 1 for bias 1 and input 1, where the Gaussian term is 0 |
| RbmCs.FloatsAt | trunk/helpers/RBM.cs:186-215 | a run of n floats is n values long |
| RbmCs.ReadSingles | trunk/helpers/RBM.cs:186-215 | ReadSingle gives the floats whose 32-bit patterns are stored little-endian from the position on, whatever the machine's byte order |
| RbmCs.FloatsAtIndex | trunk/helpers/RBM.cs:186-215 | float k of a run comes from its own four bytes at position + 4k |
| RbmCs.Transpose | trunk/helpers/RBM.cs:294-303 | the transposition loop gives H rows of V weights with vf[j][i] = hf[i][j] |
| RbmCs.ReadRows | trunk/helpers/RBM.cs:285-292 | the weights loop reads V rows of H floats, each from its own place in the stream |
| RbmCs.ReadBody | trunk/helpers/RBM.cs:266-292 | after the magic, Load reads the unit type, the two little-endian ushort counts, the means and standard deviations only for Linear units, the biases, and the weights, each from its offset |
| RbmCs.ReadArrays | trunk/helpers/RBM.cs:271-292 | after the counts, Load reads the Linear statistics (or none), the V visible and H hidden biases from their offsets, and V rows of H weights each |
| RbmCs.ReadStats | trunk/helpers/RBM.cs:272-278 | the Linear statistics are V means from byte 9 followed by V standard deviations |
| RbmCs.LcgStepInvertible | trunk/helpers/RBM.cs:356-371 | the seed update seed * 1664525 + 1013904223 (mod 2^32) is a bijection: stepping back with the inverse multiplier restores the seed |
| RbmCs.LcgStep | trunk/helpers/RBM.cs:356-371 | definition only: the seed update seed * 1664525 + 1013904223 modulo 2^32; RbmCs.LcgStepInvertible states that it is a bijection |
| RbmCs.Rbm.Init | trunk/helpers/RBM.cs:219-222 | the new object holds exactly the fields it is given |
| RbmCs.Rbm.Load | trunk/helpers/RBM.cs:250-314 | null exactly when the stream does not start with ".RBM"; otherwise every field is what the stream holds at its offset, the transposed weights match the stored ones and seed j is the j-th draw |
| RbmCs.Rbm.CalcHiddenActivations | trunk/helpers/RBM.cs:316-334 | h[j] is hidden bias j plus row j of the transposed weights dotted with the visible vector |
| RbmCs.Rbm.HiddenActivation | trunk/helpers/RBM.cs:316-334 | definition only: hidden unit j's input, its bias plus row j of the transposed weights dotted with the visible vector; RbmCs.HiddenActivationByColumn restates it over the stored weights |
| RbmCs.Rbm.VisibleActivation | trunk/helpers/RBM.cs:378-399 | definition only: visible unit i's input, its bias plus row i of the stored weights dotted with the hidden vector |
| RbmCs.Rbm.Activate | trunk/helpers/RBM.cs:342-346 | the inner loop gives hidden unit j's input |
| RbmCs.Rbm.CalcHiddenProbabilities | trunk/helpers/RBM.cs:336-350 | h[j] is Sigmoid.Calc of hidden unit j's input; entries past H are untouched |
| RbmCs.Rbm.CalcHiddenStates | trunk/helpers/RBM.cs:352-376 | each seed advances by one LCG step, and h[j] is 1 exactly when the new seed is below the unit's probability times uint.MaxValue, else 0; only the seeds and h change |
| RbmCs.Rbm.CalcVisible | trunk/helpers/RBM.cs:378-399 | v[i] is visible bias i plus row i of the stored weights dotted with the hidden vector, passed through Sigmoid.Calc only for Sigmoid visible units |
| RbmCs.Rbm.SubtractSoftplus | trunk/helpers/RBM.cs:417-450 | the hidden loop subtracts LnOnePlusExp of every hidden input |
| RbmCs.Rbm.CalcFreeEnergyAsWritten | trunk/helpers/RBM.cs:401-455 | as written: Sigmoid units give -b.v minus the softplus terms; Linear units square b_i * v_i |
| RbmCs.Rbm.CalcFreeEnergy | trunk/helpers/RBM.cs:401-455 | corrected: the Linear visible term is half the sum of (v_i - b_i)^2; the Sigmoid case is unchanged |
| RbmCs.Rbm.FreeEnergy | trunk/helpers/RBM.cs:401-455 | definition only: the free energy with the Gaussian term (v_i - b_i)^2 / 2 for Linear visible units; RbmCs.Rbm.CalcFreeEnergy computes it |
| RbmCs.Rbm.FreeEnergyAsWritten | trunk/helpers/RBM.cs:401-455 | definition only: the free energy as CalcFreeEnergy writes it, squaring b_i * v_i for Linear units; RbmCs.Rbm.CalcFreeEnergyAsWritten computes it and RbmCs.ProductSquaresAtBiases shows the difference |
| RbmCs.Rbm.NormalizeVisibleVector | trunk/helpers/RBM.cs:457-466 | each of the first V entries becomes (v_i - mean_i) / stddev_i; later entries are untouched |
| RbmCs.HiddenActivationByColumn | trunk/helpers/RBM.cs:294-331 | because Load stores the transpose, hidden unit j's input is its bias plus column j of the stored V x H weights dotted with the visible vector |
| RbmCs.NormalizeInverts | trunk/helpers/RBM.cs:463 | a normalised entry times its standard deviation plus its mean gives back the input |
| RbmHpp.Image | helpers/RBM.hpp:37-74 | the saved file is 8 bytes of header plus 4 bytes per visible bias, hidden bias and weight |
| RbmHpp.Parse | helpers/RBM.hpp:90-106 | Load gives nothing exactly when the first four bytes are not ".RBM" |
| RbmHpp.Patterns | helpers/RBM.hpp:127-131 | fread of n floats gives the n 32-bit patterns of the bytes in machine order |
| RbmHpp.ParseRejectsBadMagic | helpers/RBM.hpp:90-95 | a file that does not start with ".RBM" loads as NULL |
| RbmHpp.ImageFields | helpers/RBM.hpp:37-74 | in the saved file the magic, V, H, the visible biases, the hidden biases and the weights sit at the offsets the format comment gives, and the file has exactly that size |
| RbmHpp.SaveThenLoad | helpers/RBM.hpp:51-111 | loading a saved RBM on the same machine gives back its counts, biases and weights |
| RbmHpp.WeightIndexInside | helpers/RBM.hpp:32-35 | GetWeight(i, j) indexes inside the V * H weight array |
| RbmHpp.WeightIndexInjective | helpers/RBM.hpp:32-35 | distinct (i, j) pairs with j < H use distinct weight slots |
| RbmHpp.WeightInFile | helpers/RBM.hpp:32-48 | in any file whose bytes from the weight offset encode the V * H weights, weight (i, j) is read from its row-major place i * H + j |
| RbmHpp.WeightInImage | helpers/RBM.hpp:32-48 | the weight at row-major index i * H + j is the float Save writes at byte 8 + 4V + 4H + 4(i * H + j) |
| RbmHpp.ReadInto | helpers/RBM.hpp:127-131 | the destination array ends up holding the n patterns read from the position on |
| RbmHpp.Rbm.constructor | helpers/RBM.hpp:13-24 | the constructor asserts both counts non-zero, stores them and allocates distinct arrays of V, H and V * H floats |
| RbmHpp.Rbm.Save | helpers/RBM.hpp:51-78 | false exactly when the file cannot be opened; otherwise the file written is the saved image of the RBM in machine order |
| RbmHpp.Rbm.Load | helpers/RBM.hpp:79-111 | NULL exactly when the file cannot be opened or lacks the ".RBM" magic; otherwise a new RBM with fresh arrays holding what the file stores |
| RbmHpp.GetWeightSaved | helpers/RBM.hpp:32-78 | GetWeight(i, j) returns the weight Save writes for row i, column j |
| JsonReader.SkipFrom | trunk/extern/cppJSONStream/cppJSONStream.cpp:12-26 | skip stops at the first character that is not a space, tab, carriage return or newline, having passed only those four |
| JsonReader.BoolAt | trunk/extern/cppJSONStream/cppJSONStream.cpp:28-63 | parse_bool only moves forward within the stream |
| JsonReader.BoolAtAccepts | trunk/extern/cppJSONStream/cppJSONStream.cpp:28-63 | parse_bool succeeds exactly on "true" or "false", reads true only for "true", and consumes 4 or 5 characters accordingly |
| JsonReader.NullAt | trunk/extern/cppJSONStream/cppJSONStream.cpp:212-228 | parse_null succeeds exactly when the next four characters are "null" |
| JsonReader.Unescape | trunk/extern/cppJSONStream/cppJSONStream.cpp:185-201 | exactly eight escape letters are accepted: quote, backslash, slash, b, f, n, r and t |
| JsonReader.StringBody | trunk/extern/cppJSONStream/cppJSONStream.cpp:177-209 | the string scan only moves forward and only appends to the text read so far |
| JsonReader.StringAt | trunk/extern/cppJSONStream/cppJSONStream.cpp:169-210 | parse_string only moves forward within the stream |
| JsonReader.DigitsEnd | trunk/extern/cppJSONStream/cppJSONStream.cpp:88-94 | the digit loop stops at the first non-digit, having passed only digits |
| JsonReader.NumberAt | trunk/extern/cppJSONStream/cppJSONStream.cpp:65-166 | the number scan only moves forward and keeps the whole part as a uint64 |
| JsonReader.FractionAt | trunk/extern/cppJSONStream/cppJSONStream.cpp:95-140 | the fraction and exponent scan only moves forward and keeps the whole part |
| JsonReader.IntegerNumber | trunk/extern/cppJSONStream/cppJSONStream.cpp:65-166 | a plain integer below 2^64, optionally after '-', followed by a character that is neither a digit nor '.', is accepted: u is its value (0 after '-'), d its value as a real, and i its signed value whenever that fits in int64 |
| JsonReader.DigitsRun | trunk/extern/cppJSONStream/cppJSONStream.cpp:88-94 | a run of digits followed by a non-digit is exactly what the digit loop passes |
| JsonReader.ValueSnoc | trunk/extern/cppJSONStream/cppJSONStream.cpp:92 | one more digit makes the value ten times the value so far plus the digit |
| JsonReader.FractionSnoc | trunk/extern/cppJSONStream/cppJSONStream.cpp:100-104 | one more fraction digit adds the digit at the next smaller scale |
| JsonReader.WrapStep | trunk/extern/cppJSONStream/cppJSONStream.cpp:92 | accumulating digits in uint64 wraps as the exact decimal value modulo 2^64 |
| JsonReader.NumberAtEof | trunk/extern/cppJSONStream/cppJSONStream.cpp:148-151 | a number that runs to the end of the stream is rejected |
| JsonReader.ExponentNeedsFraction | trunk/extern/cppJSONStream/cppJSONStream.cpp:87-146 | the exponent is read only after a fraction: "1e5," gives 1 and stops at the 'e', while "1.5e1," gives 15 |
| JsonReader.BoolStep | trunk/extern/cppJSONStream/cppJSONStream.cpp:28-63 | parse_bool keeps the scopes and the error flag and only moves forward |
| JsonReader.NullStep | trunk/extern/cppJSONStream/cppJSONStream.cpp:212-228 | parse_null keeps the scopes and the error flag and only moves forward |
| JsonReader.StringStep | trunk/extern/cppJSONStream/cppJSONStream.cpp:169-210 | parse_string keeps the scopes and the error flag and only moves forward |
| JsonReader.NumberStep | trunk/extern/cppJSONStream/cppJSONStream.cpp:65-166 | parse_number keeps the scopes and the error flag and only moves forward |
| JsonReader.ValueStep | trunk/extern/cppJSONStream/cppJSONStream.cpp:230-269 | parse_value pushes an object scope for '{', an array scope for '[', and leaves the stack alone for every other token; it never sets the error flag |
| JsonReader.TopValue | trunk/extern/cppJSONStream/cppJSONStream.cpp:384-389 | a value outside any scope only moves forward |
| JsonReader.NameAt | trunk/extern/cppJSONStream/cppJSONStream.cpp:313-330 | a name inside an object only moves forward |
| JsonReader.InName | trunk/extern/cppJSONStream/cppJSONStream.cpp:288-331 | an object waiting for a name only moves forward |
| JsonReader.InValue | trunk/extern/cppJSONStream/cppJSONStream.cpp:333-347 | an object waiting for a value only moves forward |
| JsonReader.ElementValue | trunk/extern/cppJSONStream/cppJSONStream.cpp:373-381 | an array element only moves forward |
| JsonReader.InElement | trunk/extern/cppJSONStream/cppJSONStream.cpp:349-382 | an array waiting for an element only moves forward |
| JsonReader.Step | trunk/extern/cppJSONStream/cppJSONStream.cpp:276-390 | next only moves forward within the stream |
| JsonReader.StepAfterError | trunk/extern/cppJSONStream/cppJSONStream.cpp:278 | once an error is flagged, next returns Invalid and changes nothing |
| JsonReader.StepErrorFlag | trunk/extern/cppJSONStream/cppJSONStream.cpp:276-390 | after next the error flag is set exactly when it was already set or next returned Invalid |
| JsonReader.LeadingCommaInvalid | trunk/extern/cppJSONStream/cppJSONStream.cpp:290-358 | a ',' before the first pair of an object or the first element of an array is Invalid and sets the error flag |
| JsonReader.MissingCommaInvalid | trunk/extern/cppJSONStream/cppJSONStream.cpp:307-371 | after a pair or an element, anything other than ',' or the closing bracket is Invalid and sets the error flag |
| JsonReader.NameThenValue | trunk/extern/cppJSONStream/cppJSONStream.cpp:313-326 | reading a name switches its object from waiting for a name to waiting for a value, and nothing else on the stack changes |
| JsonReader.InNameValueName | trunk/extern/cppJSONStream/cppJSONStream.cpp:288-331 | an object waiting for a name that yields ValueName now waits for a value |
| JsonReader.NameAtValueName | trunk/extern/cppJSONStream/cppJSONStream.cpp:313-326 | a name that yields ValueName leaves its object waiting for a value |
| JsonReader.ValueCompletesPair | trunk/extern/cppJSONStream/cppJSONStream.cpp:333-347 | a valid value where an object waits for one completes a pair: the object waits for a name again with one more pair, and a nested object or array goes on top |
| JsonReader.ValueStepShape | trunk/extern/cppJSONStream/cppJSONStream.cpp:230-269 | parse_value changes the depth by the token's DepthChange, keeps the stack below, and keeps every scope well formed |
| JsonReader.NameAtShape | trunk/extern/cppJSONStream/cppJSONStream.cpp:313-330 | reading a name changes the depth by the token's DepthChange and keeps the scopes well formed |
| JsonReader.InNameShape | trunk/extern/cppJSONStream/cppJSONStream.cpp:288-331 | the name-expected case changes the depth by the token's DepthChange and keeps the scopes well formed |
| JsonReader.InValueShape | trunk/extern/cppJSONStream/cppJSONStream.cpp:333-347 | the value-expected case changes the depth by the token's DepthChange and keeps the scopes well formed |
| JsonReader.ElementValueShape | trunk/extern/cppJSONStream/cppJSONStream.cpp:373-381 | an array element changes the depth by the token's DepthChange and keeps the scopes well formed |
| JsonReader.InElementShape | trunk/extern/cppJSONStream/cppJSONStream.cpp:349-382 | the element-expected case changes the depth by the token's DepthChange and keeps the scopes well formed |
| JsonReader.StepShape | trunk/extern/cppJSONStream/cppJSONStream.cpp:276-390 | every begin token pushes one scope, every end token pops one, other tokens keep the depth, and the scopes stay well formed |
| JsonReader.Reader.constructor | trunk/extern/cppJSONStream/cppJSONStream.cpp:271-274 | a new reader is at the start of the stream with no error, no scope and empty values |
| JsonReader.Reader.Skip | trunk/extern/cppJSONStream/cppJSONStream.cpp:12-26 | skip moves the position past the whitespace and changes nothing else |
| JsonReader.Reader.ParseBool | trunk/extern/cppJSONStream/cppJSONStream.cpp:28-63 | the parse_bool loop leaves the reader in the state BoolStep describes |
| JsonReader.Reader.ParseNull | trunk/extern/cppJSONStream/cppJSONStream.cpp:212-228 | the parse_null loop leaves the reader in the state NullStep describes |
| JsonReader.Reader.ParseString | trunk/extern/cppJSONStream/cppJSONStream.cpp:169-210 | the parse_string loop leaves the reader in the state StringStep describes |
| JsonReader.Reader.ParseNumber | trunk/extern/cppJSONStream/cppJSONStream.cpp:65-166 | the parse_number loops leave the reader in the state NumberStep describes |
| JsonReader.Reader.ScanNumber | trunk/extern/cppJSONStream/cppJSONStream.cpp:78-151 | the number scan from the sign to the end ends where NumberAt does, with the same parts |
| JsonReader.Reader.ScanFraction | trunk/extern/cppJSONStream/cppJSONStream.cpp:95-140 | the scan after '.' ends where FractionAt does, with the same parts |
| JsonReader.Reader.WholeDigits | trunk/extern/cppJSONStream/cppJSONStream.cpp:88-94 | the whole-part loop ends at the first non-digit with the uint64 value of the digits passed |
| JsonReader.Reader.FractionDigits | trunk/extern/cppJSONStream/cppJSONStream.cpp:98-105 | the fraction loop ends at the first non-digit with the fraction of the digits passed, each at its tenfold smaller scale |
| JsonReader.Reader.ExponentDigits | trunk/extern/cppJSONStream/cppJSONStream.cpp:121-132 | the exponent loop ends at the first non-digit with the value of the digits passed |
| JsonReader.Reader.ParseValue | trunk/extern/cppJSONStream/cppJSONStream.cpp:230-269 | parse_value returns the token ValueStep gives and leaves the reader in its state |
| JsonReader.Reader.Next | trunk/extern/cppJSONStream/cppJSONStream.cpp:276-390 | next returns the token Step gives and leaves the reader in its state |
| JsonReader.Reader.NextTop | trunk/extern/cppJSONStream/cppJSONStream.cpp:384-389 | the top-level branch of next matches TopValue |
| JsonReader.Reader.NextName | trunk/extern/cppJSONStream/cppJSONStream.cpp:313-330 | the name branch of next matches NameAt |
| JsonReader.Reader.NextInName | trunk/extern/cppJSONStream/cppJSONStream.cpp:288-331 | the name-expected branch of next matches InName |
| JsonReader.Reader.NextInValue | trunk/extern/cppJSONStream/cppJSONStream.cpp:333-347 | the value-expected branch of next matches InValue |
| JsonReader.Reader.NextInElement | trunk/extern/cppJSONStream/cppJSONStream.cpp:349-382 | the element-expected branch of next matches InElement |
| JsonReader.Reader.NextElementValue | trunk/extern/cppJSONStream/cppJSONStream.cpp:373-381 | the element read of next matches ElementValue |
| JsonWriter.Tabs | trunk/extern/cppJSONStream/cppJSONStream.cpp:684-687 | the indentation is n tab characters |
| JsonWriter.AdvanceSettles | trunk/extern/cppJSONStream/cppJSONStream.cpp:724-788 | end_write moves a freshly pushed object to waiting for its first name, a fresh array to waiting for its first element, a name to waiting for its value, a value to waiting for a name with one more pair, and an element to one more element |
| JsonWriter.CompactSeparators | trunk/extern/cppJSONStream/cppJSONStream.cpp:658-722 | in compact output begin_write puts ':' before every value, exactly one ',' before every element or pair after the first, and nothing otherwise |
| JsonWriter.EscapeLetter | trunk/extern/cppJSONStream/cppJSONStream.cpp:430-440 | every letter written after a backslash reads back, through the reader's escape table, as the original character |
| JsonWriter.Escape | trunk/extern/cppJSONStream/cppJSONStream.cpp:419-443 | a printable character is written as itself; any other one as a backslash followed by its letter, or by nothing when the switch has no case for it |
| JsonWriter.EscapedAppend | trunk/extern/cppJSONStream/cppJSONStream.cpp:416-445 | escaping a concatenation is the concatenation of the escapes |
| JsonWriter.CharReadsBack | trunk/extern/cppJSONStream/cppJSONStream.cpp:416-445 | the reader consumes one written character, plain or escaped, and appends exactly that character |
| JsonWriter.EscapedReadsBack | trunk/extern/cppJSONStream/cppJSONStream.cpp:416-445 | the reader reads an escaped run followed by the closing quote as exactly the original characters |
| JsonWriter.WriteThenParseString | trunk/extern/cppJSONStream/cppJSONStream.cpp:416-445 | parse_string of what write_string writes gives back the text, for every NUL-free text (a C string) of printable or escapable characters, whatever follows |
| JsonWriter.UnwritableDoesNotReadBack | trunk/extern/cppJSONStream/cppJSONStream.cpp:428-440 | a control character with no escape letter is written as a lone backslash and does not read back |
| JsonWriter.Digits | trunk/extern/cppJSONStream/cppJSONStream.cpp:606-622 | ostream's decimal text of a number is a non-empty run of digits |
| JsonWriter.DigitsValue | trunk/extern/cppJSONStream/cppJSONStream.cpp:606-622 | the decimal digits of n read back as n |
| JsonWriter.DecimalSplit | trunk/extern/cppJSONStream/cppJSONStream.cpp:606-613 | an integer's text is an optional '-' followed by the digits of its magnitude |
| JsonWriter.WriteThenParseInt | trunk/extern/cppJSONStream/cppJSONStream.cpp:606-613 | parse_number reads the text write(int64) produces, followed by a non-digit other than '.', as the same signed value, both as i and as d |
| JsonWriter.WriteThenParseUInt | trunk/extern/cppJSONStream/cppJSONStream.cpp:615-622 | parse_number reads the text write(uint64) produces, followed by a non-digit other than '.', as the same unsigned value |
| JsonWriter.WriteThenParseBool | trunk/extern/cppJSONStream/cppJSONStream.cpp:590-604 | parse_bool reads the text write(bool) produces as the same value |
| JsonWriter.WriteThenParseNull | trunk/extern/cppJSONStream/cppJSONStream.cpp:649-656 | parse_null accepts the text write(nullptr) produces |
| JsonWriter.FormatFor | trunk/extern/cppJSONStream/cppJSONStream.cpp:628-632 | an integral value of magnitude below 1e60 is printed with %.0f, and %f is used only for magnitudes between 1e-6 and 1e9 |
| JsonWriter.OpenScopes | trunk/extern/cppJSONStream/cppJSONStream.cpp:489-555 | an object just opened waits for its first name and an array just opened waits for its first element |
| JsonWriter.AfterWriteSettled | trunk/extern/cppJSONStream/cppJSONStream.cpp:724-788 | every write keeps the number of scopes, changes only the innermost, and leaves every scope in a state end_write's asserts accept |
| JsonWriter.DecimalTexts | trunk/extern/cppJSONStream/cppJSONStream.hpp:109-117 | each value's text is its decimal text |
| JsonWriter.CompactArrayBody | trunk/extern/cppJSONStream/cppJSONStream.hpp:109-117 | compact write_array of integers joins their decimal texts with single commas |
| JsonWriter.ElementScope | trunk/extern/cppJSONStream/cppJSONStream.cpp:663-786 | inside an array holding k elements, the separator is ',' (", " when pretty) exactly when k > 0, and one more write counts k + 1 |
| JsonWriter.ArrayBodyStep | trunk/extern/cppJSONStream/cppJSONStream.hpp:112-115 | each element of write_array adds its separator and its text |
| JsonWriter.EscapedSnoc | trunk/extern/cppJSONStream/cppJSONStream.cpp:419-443 | the escape of a text grows one character's escape at a time |
| JsonWriter.Writer.constructor | trunk/extern/cppJSONStream/cppJSONStream.cpp:447-451 | a new writer has no scopes, depth 0, the chosen format and an empty output |
| JsonWriter.Writer.BeginWrite | trunk/extern/cppJSONStream/cppJSONStream.cpp:658-722 | begin_write appends the separator the innermost scope needs and changes nothing else |
| JsonWriter.Writer.EndWrite | trunk/extern/cppJSONStream/cppJSONStream.cpp:724-788 | end_write advances the innermost scope and writes nothing |
| JsonWriter.Writer.WriteText | trunk/extern/cppJSONStream/cppJSONStream.cpp:590-656 | a value write appends the separator and the value's text, and advances the innermost scope |
| JsonWriter.Writer.WriteBool | trunk/extern/cppJSONStream/cppJSONStream.cpp:590-604 | write(bool) appends the separator and "true" or "false" |
| JsonWriter.Writer.WriteInt | trunk/extern/cppJSONStream/cppJSONStream.cpp:606-613 | write(int64) appends the separator and the decimal text |
| JsonWriter.Writer.WriteUInt | trunk/extern/cppJSONStream/cppJSONStream.cpp:615-622 | write(uint64) appends the separator and the decimal text |
| JsonWriter.Writer.WriteDouble | trunk/extern/cppJSONStream/cppJSONStream.cpp:624-638 | write(double) appends the separator and the value rendered in the format the three-way test picks |
| JsonWriter.Writer.WriteNull | trunk/extern/cppJSONStream/cppJSONStream.cpp:649-656 | write(nullptr) appends the separator and "null" |
| JsonWriter.Writer.PutString | trunk/extern/cppJSONStream/cppJSONStream.cpp:416-445 | write_string appends the text in quotes with every character plain or escaped |
| JsonWriter.Writer.WriteString | trunk/extern/cppJSONStream/cppJSONStream.cpp:640-647 | write(const char*) appends the separator and the quoted text |
| JsonWriter.Writer.WriteName | trunk/extern/cppJSONStream/cppJSONStream.cpp:572-588 | write_name, allowed only where the innermost object waits for a name, appends the separator and the quoted name and leaves the object waiting for a value |
| JsonWriter.Writer.WriteNameValue | trunk/extern/cppJSONStream/cppJSONStream.hpp:101-106 | write_namevalue writes the name and then the value, advancing the object twice |
| JsonWriter.Writer.BeginObject | trunk/extern/cppJSONStream/cppJSONStream.cpp:453-496 | begin_object, allowed only where a value or element is expected, appends the separator, the pretty line break and '{', and pushes an object waiting for its first name |
| JsonWriter.Writer.EndObject | trunk/extern/cppJSONStream/cppJSONStream.cpp:498-519 | end_object, allowed only where the object waits for a name, appends the pretty line break and '}', pops the object and advances the enclosing scope |
| JsonWriter.Writer.BeginArray | trunk/extern/cppJSONStream/cppJSONStream.cpp:521-556 | begin_array, allowed only where a value or element is expected, appends the separator, the pretty line break and '[', and pushes an array waiting for its first element |
| JsonWriter.Writer.EndArray | trunk/extern/cppJSONStream/cppJSONStream.cpp:558-570 | end_array, allowed only inside an array, appends ']', pops it and advances the enclosing scope |
| JsonWriter.Writer.WriteIntArray | trunk/extern/cppJSONStream/cppJSONStream.hpp:108-117 | write_array of int64 values appends '[', the elements with their separators and ']', and advances the enclosing scope once |
| JsonWriter.Writer.WriteElement | trunk/extern/cppJSONStream/cppJSONStream.cpp:606-676 | one element write inside an array of k elements appends the element separator and the decimal text, and counts k + 1 |
| JsonWriter.Writer.WriteElements | trunk/extern/cppJSONStream/cppJSONStream.hpp:112-115 | the write_array loop appends exactly the array body and leaves the array holding one element per value |
| JsonItems.At | trunk/extern/cppJSONStream/cppJSONStream.hpp:13 | past the end of the tokens next() yields only Invalid |
| JsonItems.TokenInside | trunk/extern/cppJSONStream/cppJSONStream.hpp:13 | a TryGetToken that succeeds on a token other than Invalid was given a real token |
| JsonItems.NumbersTo | source/OMLT/OMLT/source/RestrictedBoltzmannMachine.cpp:319-323 | a successful read of k numbers yields k values |
| JsonItems.NumbersToMeaning | source/OMLT/OMLT/source/RestrictedBoltzmannMachine.cpp:319-323 | the loop of TryGetToken(Number) and readDouble succeeds exactly when the k tokens are all numbers, and then yields their values in order |
| JsonItems.Row | source/OMLT/OMLT/source/RestrictedBoltzmannMachine.cpp:338-347 | a row read as BeginArray, n numbers and EndArray yields n values, and the tokens it used are all present |
| JsonItems.RowsTo | source/OMLT/OMLT/source/RestrictedBoltzmannMachine.cpp:337-348 | k rows of n numbers read in sequence yield k rows of n values each, and the read position only moves forward |
| JsonItems.RowsStopped | source/OMLT/OMLT/source/RestrictedBoltzmannMachine.cpp:337-348 | once a row fails, reading more rows still fails, because each failed TryGetToken returns at once |
| JsonItems.NumbersStopped | source/OMLT/OMLT/source/RestrictedBoltzmannMachine.cpp:319-323 | once a number fails, reading more numbers still fails |
| JsonItems.NumberItems | trunk/extern/cppJSONStream/cppJSONStream.hpp:108-117 | write_array of floats writes one number token per value, in order |
| JsonItems.ArrayItems | trunk/extern/cppJSONStream/cppJSONStream.hpp:108-117 | write_array brackets its n numbers, n + 2 tokens in all |
| JsonItems.SegmentSplit | trunk/extern/cppJSONStream/cppJSONStream.hpp:108-117 | tokens written one after the other sit one after the other in the stream |
| JsonItems.NumbersReadTo | source/OMLT/OMLT/source/RestrictedBoltzmannMachine.cpp:319-323 | reading k numbers from where write_array wrote its numbers yields the first k values written |
| JsonItems.NumbersRead | source/OMLT/OMLT/source/RestrictedBoltzmannMachine.cpp:319-323 | reading the numbers write_array wrote yields exactly the values written |
| JsonItems.RowRead | source/OMLT/OMLT/source/RestrictedBoltzmannMachine.cpp:338-347 | reading a row from what write_array wrote yields the row |
| JsonItems.RowsRead | source/OMLT/OMLT/source/RestrictedBoltzmannMachine.cpp:337-348 | reading k rows from what k write_array calls wrote yields the rows, and ends right after them |
| Enums.FunctionAt | source/OMLT/OMLT/source/Enums.cpp:9-15 | the k-th entry of the name table names a valid activation function |
| Enums.Ordinal | source/OMLT/OMLT/source/Enums.cpp:9-15 | every valid function has a position in the table, and that position names it |
| Enums.NamesDistinct | source/OMLT/OMLT/source/Enums.cpp:9-15 | the four names are pairwise different, so at most one entry matches a name |
| Enums.SearchFromMeaning | source/OMLT/OMLT/source/Enums.cpp:19-27 | the scan from position k finds a function exactly when the name is in the rest of the table, and finds the first entry equal to it |
| Enums.FunctionNamed | source/OMLT/OMLT/source/Enums.cpp:17-28 | ParseFunction gives a valid function exactly when the name is in the table, and that function's entry is the name |
| Enums.ParseFunction | source/OMLT/OMLT/source/Enums.cpp:17-28 | the comparison loop returns the first function whose name is equal, and Invalid when none is |
| Enums.ParseName | source/OMLT/OMLT/source/Enums.cpp:9-25 | parsing the name of any valid function gives that function back |
| Enums.UnknownName | source/OMLT/OMLT/source/Enums.cpp:27 | a name outside the table, such as "Tanh", parses as Invalid |
| Mlp.InputBuffer | trunk/source/OMLT/OMLT/source/MultilayerPerceptron.cpp:76-79 | the buffer AddLayer allocates in front of a layer is zero-filled and holds at least one float per input |
| Mlp.MultilayerPerceptron.constructor | trunk/source/OMLT/OMLT/source/MultilayerPerceptron.cpp:23-27 | a new network has no layers and two null activation slots |
| Mlp.MultilayerPerceptron.AddLayer | trunk/source/OMLT/OMLT/source/MultilayerPerceptron.cpp:67-88 | a layer whose inputs differ from the last layer's outputs is refused and nothing changes; otherwise it is appended, and after the first layer a zeroed input buffer takes the old output slot and a new null slot follows; the network stays valid |
| Mlp.MultilayerPerceptron.FeedForward | trunk/source/OMLT/OMLT/source/MultilayerPerceptron.cpp:47-59 | FeedForward(input, output, last_layer), with last_layer below the layer count, leaves in the activation buffer after layer k the input passed through layers 0 to k, for every k up to last_layer, and keeps the other buffers; output receives the result only when last_layer is the last layer, and is otherwise left as it was |
| Mlp.MultilayerPerceptron.FeedForwardAll | trunk/source/OMLT/OMLT/source/MultilayerPerceptron.cpp:42-45 | FeedForward(input, output) writes to output the input passed through every layer, and leaves each inner buffer holding the activation of its layer |
| Mlp.ForwardSplit | trunk/source/OMLT/OMLT/source/MultilayerPerceptron.cpp:53-56 | feeding through a layers and then b more is feeding through a + b layers |
| Mlp.Forward | trunk/source/OMLT/OMLT/source/MultilayerPerceptron.cpp:47-59 | definition only: the input passed through the first n layers; Mlp.ForwardSplit and Mlp.ForwardSize state its properties |
| Mlp.ForwardSize | trunk/source/OMLT/OMLT/source/MultilayerPerceptron.cpp:53-56 | when each layer computes one value per output, the result has the last layer's output count |
| Mlp.AddChains | trunk/source/OMLT/OMLT/source/MultilayerPerceptron.cpp:67-88 | a layer AddLayer accepts keeps the layers chained, each one's outputs feeding the next one's inputs |
| Mlp.LayerHeadAt | trunk/source/OMLT/OMLT/source/MultilayerPerceptron.cpp:288-303 | a layer's Inputs, Outputs and Function pairs are accepted only with non-zero sizes below 2^32 and a known function |
| Mlp.LayerArraysAt | trunk/source/OMLT/OMLT/source/MultilayerPerceptron.cpp:307-328 | the bias loop and the weight loops of one layer consume tokens and stay within the stream |
| Mlp.LayerAt | trunk/source/OMLT/OMLT/source/MultilayerPerceptron.cpp:286-328 | reading one layer consumes tokens and stays within the stream |
| Mlp.LayerArraysShaped | trunk/source/OMLT/OMLT/source/MultilayerPerceptron.cpp:307-328 | the loader reads one bias per output and one row of Inputs weights per output |
| Mlp.LayerAtFits | trunk/source/OMLT/OMLT/source/MultilayerPerceptron.cpp:286-328 | every layer the streaming loader reads has non-zero sizes, a known function and arrays of those sizes |
| Mlp.LayersFromChained | trunk/source/OMLT/OMLT/source/MultilayerPerceptron.cpp:284-330 | the layer loop, starting from chained layers, only ends with chained layers |
| Mlp.LayersFrom | trunk/source/OMLT/OMLT/source/MultilayerPerceptron.cpp:284-330 | definition only: the layer loop of the streaming FromJSON, as written or corrected; Mlp.LayersFromChained, Mlp.LayersFromStep and Mlp.LayersFromStuck state its properties |
| Mlp.LayerThen | trunk/source/OMLT/OMLT/source/MultilayerPerceptron.cpp:287-330 | definition only: one pass of that loop from a layer's BeginObject; Mlp.RefusedLayerDropped states what it does with a layer AddLayer refuses |
| Mlp.ToStream | trunk/source/OMLT/OMLT/source/MultilayerPerceptron.cpp:127-154 | definition only: the tokens the streaming ToJSON writes; Mlp.StreamRoundTrip states that the corrected loader reads them back |
| Mlp.FromStream | trunk/source/OMLT/OMLT/source/MultilayerPerceptron.cpp:266-334 | whatever the streaming FromJSON returns is a chained list of layers |
| Mlp.ReadNumbers | trunk/source/OMLT/OMLT/source/MultilayerPerceptron.cpp:309-325 | the number loop reads exactly the n numbers from its position, failing at the first other token |
| Mlp.ReadRow | trunk/source/OMLT/OMLT/source/MultilayerPerceptron.cpp:320-326 | a weight row is a BeginArray, n numbers and an EndArray |
| Mlp.ReadRows | trunk/source/OMLT/OMLT/source/MultilayerPerceptron.cpp:318-327 | the weight loop reads o rows of i numbers one after another |
| Mlp.ReadLayerHead | trunk/source/OMLT/OMLT/source/MultilayerPerceptron.cpp:288-303 | the pair reads and the validation of one layer return exactly the specified sizes and function |
| Mlp.ReadLayerArrays | trunk/source/OMLT/OMLT/source/MultilayerPerceptron.cpp:307-328 | the bias and weight loops of one layer return exactly the specified arrays and position |
| Mlp.ReadLayer | trunk/source/OMLT/OMLT/source/MultilayerPerceptron.cpp:286-329 | the loop body for one layer, with its EndObject consumed, returns exactly the specified layer |
| Mlp.ReadStream | trunk/source/OMLT/OMLT/source/MultilayerPerceptron.cpp:266-334 | the corrected streaming FromJSON returns nullptr exactly when the specified load fails, and otherwise a new valid network holding the loaded layers |
| Mlp.LayerHeadItems | trunk/source/OMLT/OMLT/source/MultilayerPerceptron.cpp:137-141 | a layer's written head is its BeginObject, its three name/value pairs and the Biases name |
| Mlp.LayerHeadRead | trunk/source/OMLT/OMLT/source/MultilayerPerceptron.cpp:286-303 | a written layer head reads back as the layer's sizes and function |
| Mlp.LayerArraysRead | trunk/source/OMLT/OMLT/source/MultilayerPerceptron.cpp:307-328 | written biases and weight rows read back as the layer's arrays |
| Mlp.LayerRead | trunk/source/OMLT/OMLT/source/MultilayerPerceptron.cpp:286-328 | a written layer reads back as itself; the next token is its EndObject, which only the corrected loop consumes |
| Mlp.FirstLayerAsWritten | trunk/source/OMLT/OMLT/source/MultilayerPerceptron.cpp:284-330 | as written, the first layer reads back and leaves its EndObject as the next token |
| Mlp.LayersFromStep | trunk/source/OMLT/OMLT/source/MultilayerPerceptron.cpp:284-330 | one pass of the loop over a layer AddLayer takes continues after it with the layer added |
| Mlp.RefusedLayerDropped | trunk/source/OMLT/OMLT/source/MultilayerPerceptron.cpp:287-330 | for a layer AddLayer refuses, the loop as written goes on without it (the result of AddLayer is ignored), while the corrected loop fails the load |
| Mlp.LayersFromStuck | trunk/source/OMLT/OMLT/source/MultilayerPerceptron.cpp:284-286 | the loop fails on an EndObject, which is neither the BeginObject of a layer nor the closing EndArray |
| Mlp.LayerStep | trunk/source/OMLT/OMLT/source/MultilayerPerceptron.cpp:284-330 | the corrected loop over a written layer that chains adds it and continues after it |
| Mlp.LayerReadStep | trunk/source/OMLT/OMLT/source/MultilayerPerceptron.cpp:284-330 | the corrected loop over written layer k continues from the next layer with layer k added |
| Mlp.LayersRead | trunk/source/OMLT/OMLT/source/MultilayerPerceptron.cpp:284-331 | the corrected layer loop reads back written chained layers from any point on |
| Mlp.HeadRead | trunk/source/OMLT/OMLT/source/MultilayerPerceptron.cpp:272-278 | the written object start, Type pair and Layers name pass the loader's header checks |
| Mlp.StreamRead | trunk/source/OMLT/OMLT/source/MultilayerPerceptron.cpp:266-334 | the corrected loader reads back a stream that holds the written header, layers and closing tokens |
| Mlp.StreamRoundTrip | trunk/source/OMLT/OMLT/source/MultilayerPerceptron.cpp:266-334 | the corrected streaming FromJSON reads back what the streaming ToJSON writes, for chained layers with non-zero sizes and known functions |
| Mlp.FirstLayerStuck | trunk/source/OMLT/OMLT/source/MultilayerPerceptron.cpp:284-330 | as written, a written network with a layer fails to load right after its first layer |
| Mlp.WrittenNotReadBack | trunk/source/OMLT/OMLT/source/MultilayerPerceptron.cpp:284-330 | as written, the streaming FromJSON reads back nothing the streaming ToJSON writes for a network with a layer, because each layer's EndObject meets the check for the next BeginObject |
| Mlp.EmptyReadBack | trunk/source/OMLT/OMLT/source/MultilayerPerceptron.cpp:266-334 | an empty network reads back from its own output, as written and corrected |
| Mlp.LayerOutcome | trunk/source/OMLT/OMLT/source/MultilayerPerceptron.cpp:175-244 | one layer object: a missing field, an unknown function or a weight row of the wrong size fails the load; a layer that is added chains, has a known function and the shapes its counts give; only the as-written loader skips a layer |
| Mlp.DocumentLayersShaped | trunk/source/OMLT/OMLT/source/MultilayerPerceptron.cpp:173-245 | the cJSON layer loop only loads chained layers with known functions and arrays of the sizes their counts give |
| Mlp.DocumentAdd | trunk/source/OMLT/OMLT/source/MultilayerPerceptron.cpp:205-238 | a pass that adds a layer appends it to what the earlier passes loaded |
| Mlp.DocumentSkip | trunk/source/OMLT/OMLT/source/MultilayerPerceptron.cpp:201-206 | a pass that skips its layer object leaves what the earlier passes loaded |
| Mlp.DocumentFail | trunk/source/OMLT/OMLT/source/MultilayerPerceptron.cpp:229-250 | a pass that fails ends the load with nullptr |
| Mlp.FromDocument | trunk/source/OMLT/OMLT/source/MultilayerPerceptron.cpp:156-254 | whatever the cJSON FromJSON returns is a chained list of layers; a null root, a Type other than MultilayerPerceptron or no Layers gives nullptr |
| Mlp.LayerDocumentAdds | trunk/source/OMLT/OMLT/source/MultilayerPerceptron.cpp:175-238 | the layer object ToJSON builds for a layer that chains is added as that same layer |
| Mlp.DocumentLayersRead | trunk/source/OMLT/OMLT/source/MultilayerPerceptron.cpp:173-245 | the cJSON layer loop reads back the layer objects ToJSON builds for chained layers |
| Mlp.LayerDocumentsTo | trunk/source/OMLT/OMLT/source/MultilayerPerceptron.cpp:97-115 | ToJSON builds one layer object per layer, in order |
| Mlp.DocumentRoundTrip | trunk/source/OMLT/OMLT/source/MultilayerPerceptron.cpp:90-254 | both cJSON loaders read back the document ToJSON builds for chained layers with known functions and sizes below 2^31 |
| Mlp.CorrectedAgrees | trunk/source/OMLT/OMLT/source/MultilayerPerceptron.cpp:173-245 | the corrected cJSON loader only refuses more: whatever it loads, the as-written one loads too |
| Mlp.MismatchDropped | trunk/source/OMLT/OMLT/source/MultilayerPerceptron.cpp:201-206 | as written, a second layer with 2 inputs after a layer with 1 output is refused by the ignored AddLayer and the load succeeds with one layer; the corrected load fails |
| Mlp.ShortLayerSkipped | trunk/source/OMLT/OMLT/source/MultilayerPerceptron.cpp:201-240 | as written, a layer with no bias for its one output is skipped and the load succeeds without it; the corrected load fails |
| RbmJson.HeaderOf | source/OMLT/OMLT/source/RestrictedBoltzmannMachine.cpp:287-311 | the streaming header is accepted only with both counts in 1..2^32-1 and both activation types known |
| RbmJson.BiasesOf | source/OMLT/OMLT/source/RestrictedBoltzmannMachine.cpp:318-332 | the two bias loops read one visible bias per visible unit and one hidden bias per hidden unit |
| RbmJson.WeightsOf | source/OMLT/OMLT/source/RestrictedBoltzmannMachine.cpp:336-350 | the weight loop reads one row of visible-count weights per hidden unit |
| RbmJson.FromStream | source/OMLT/OMLT/source/RestrictedBoltzmannMachine.cpp:281-353 | whatever the streaming FromJSON loads is well formed: valid counts, known types and arrays of the sizes the counts give |
| RbmJson.ToStream | source/OMLT/OMLT/source/RestrictedBoltzmannMachine.cpp:128-150 | definition only: the tokens the streaming ToJSON writes for a model; RbmJson.StreamRoundTrip states that the streaming FromJSON reads them back |
| RbmJson.RestrictedBoltzmannMachine.constructor | source/OMLT/OMLT/source/RestrictedBoltzmannMachine.cpp:25-34 | a new machine has the given counts and types and fresh bias and feature arrays of the sizes they give |
| RbmJson.HoldsSymmetric | source/OMLT/OMLT/source/RestrictedBoltzmannMachine.cpp:344-345 | in a loaded machine hidden.feature(j)[i] equals visible.feature(i)[j] for every pair |
| RbmJson.ReadNumbers | source/OMLT/OMLT/source/RestrictedBoltzmannMachine.cpp:319-331 | a bias loop succeeds exactly when the next n tokens are numbers and fills the array with them in order |
| RbmJson.ReadRow | source/OMLT/OMLT/source/RestrictedBoltzmannMachine.cpp:339-347 | row j of the weights succeeds exactly when it is a BeginArray, V numbers and an EndArray, writes each weight to both feature maps and leaves the other rows alone |
| RbmJson.ReadBiases | source/OMLT/OMLT/source/RestrictedBoltzmannMachine.cpp:318-332 | the bias part succeeds exactly when the specified bias tokens are there, and the bias arrays then hold them |
| RbmJson.ReadWeights | source/OMLT/OMLT/source/RestrictedBoltzmannMachine.cpp:336-350 | the weight part succeeds exactly when the specified weight tokens are there, and both feature maps then hold every weight |
| RbmJson.ReadHeader | source/OMLT/OMLT/source/RestrictedBoltzmannMachine.cpp:287-311 | the header reads and the validation return exactly the specified header |
| RbmJson.ReadStream | source/OMLT/OMLT/source/RestrictedBoltzmannMachine.cpp:281-353 | the streaming FromJSON returns nullptr exactly when the specified load fails, and otherwise a new machine holding the loaded value |
| RbmJson.ReadRows | source/OMLT/OMLT/source/RestrictedBoltzmannMachine.cpp:337-348 | the weight loop succeeds exactly when H rows of V numbers follow, and both feature maps then hold every row |
| RbmJson.HeaderItems | source/OMLT/OMLT/source/RestrictedBoltzmannMachine.cpp:132-138 | the streaming ToJSON writes twelve tokens before the visible biases |
| RbmJson.MiddleItems | source/OMLT/OMLT/source/RestrictedBoltzmannMachine.cpp:139-143 | between the visible biases and the weights come the HiddenBiases name, the hidden biases in an array and the Weights name with its BeginArray |
| RbmJson.HeaderTokens | source/OMLT/OMLT/source/RestrictedBoltzmannMachine.cpp:287-300 | the written header puts the type check, the two counts and the two type names where the loader reads them |
| RbmJson.HeaderRead | source/OMLT/OMLT/source/RestrictedBoltzmannMachine.cpp:287-311 | a written header of a well-formed machine reads back as its counts and types |
| RbmJson.BiasesRead | source/OMLT/OMLT/source/RestrictedBoltzmannMachine.cpp:318-332 | written biases read back as the machine's biases |
| RbmJson.WeightsRead | source/OMLT/OMLT/source/RestrictedBoltzmannMachine.cpp:336-350 | written weight rows and the closing tokens read back as the machine's weights |
| RbmJson.StreamRead | source/OMLT/OMLT/source/RestrictedBoltzmannMachine.cpp:281-353 | tokens laid out as the streaming ToJSON writes them read back as the machine |
| RbmJson.StreamRoundTrip | source/OMLT/OMLT/source/RestrictedBoltzmannMachine.cpp:281-353 | the streaming FromJSON reads back what the streaming ToJSON writes for every well-formed machine |
| RbmJson.StreamHeader | source/OMLT/OMLT/source/RestrictedBoltzmannMachine.cpp:287-311 | a successful streaming load took its counts and types from the header tokens, and a header whose counts or types fail the validation gives nullptr |
| RbmJson.LastNamedToFinds | source/OMLT/OMLT/source/RestrictedBoltzmannMachine.cpp:182-193 | the type loop after k names finds a type exactly when the name is among them, and that type's entry is the name |
| RbmJson.LastNamedIsFirst | source/OMLT/OMLT/source/RestrictedBoltzmannMachine.cpp:182-193 | as the names are distinct, the loop without a break agrees with ParseFunction |
| RbmJson.DocumentHeader | source/OMLT/OMLT/source/RestrictedBoltzmannMachine.cpp:158-204 | the cJSON checks pass only when every field is present, the Type is RestrictedBoltzmannMachine, both types are found and the three array sizes equal the counts; with the zero-count test both counts are positive |
| RbmJson.FromDocument | source/OMLT/OMLT/source/RestrictedBoltzmannMachine.cpp:152-271 | whatever the cJSON FromJSON loads has arrays of the sizes its counts give and known types; with the zero-count test it is well formed |
| RbmJson.DocumentRoundTrip | source/OMLT/OMLT/source/RestrictedBoltzmannMachine.cpp:99-271 | the cJSON loader reads a well-formed machine's document back, with or without the zero-count test |
| RbmJson.EmptyCheckOnly | source/OMLT/OMLT/source/RestrictedBoltzmannMachine.cpp:202-306 | the zero-count test changes only the loads of a machine with no visible or no hidden units |
| RbmJson.EmptyMachineAccepted | source/OMLT/OMLT/source/RestrictedBoltzmannMachine.cpp:177-205 | as written, the cJSON FromJSON loads a document with zero counts and empty arrays as a machine with no units, which the streaming loader refuses |
| RbmJson.LookupLast | source/OMLT/OMLT/source/RestrictedBoltzmannMachine.cpp:182-193 | the type loop compares every name without a break and returns the last match |
| RbmJson.CheckDocument | source/OMLT/OMLT/source/RestrictedBoltzmannMachine.cpp:167-205 | the checks before the copy return exactly the specified header, with the zero-count test |
| RbmJson.CopyNumbers | source/OMLT/OMLT/source/RestrictedBoltzmannMachine.cpp:211-225 | a bias copy loop fills the array with the document's numbers in order |
| RbmJson.CopyRows | source/OMLT/OMLT/source/RestrictedBoltzmannMachine.cpp:231-253 | the weight copy succeeds exactly when every row has visible-count numbers, and both feature maps then hold every weight |
| RbmJson.ReadDocument | source/OMLT/OMLT/source/RestrictedBoltzmannMachine.cpp:152-271 | the cJSON FromJSON with the zero-count test returns nullptr exactly when the specified load fails, and otherwise a new machine holding the loaded value |
| Schedule.Step | trunk/source/OMLT/OMLT/include/TrainingSchedule.h:38-56 | NextEpoch loads a configuration exactly when at most one epoch was left and the next index, wrapping from -1 to 0, names a configuration, and then loads that configuration's epochs; otherwise one epoch is used up, saturating at 0; the index never passes the number of configurations |
| Schedule.TrainingSchedule.Current | trunk/source/OMLT/OMLT/include/TrainingSchedule.h:79-80 | definition only: the counters epochs_remaining and index as a value, which Schedule.Step moves |
| Schedule.TrainingSchedule.TrainingComplete | trunk/source/OMLT/OMLT/include/TrainingSchedule.h:31-35 | definition only: done when the index is past the last configuration and no epochs are left; Schedule.StepProgresses and Schedule.CompleteStays state its properties |
| Schedule.StepProgresses | trunk/source/OMLT/OMLT/include/TrainingSchedule.h:31-56 | on a schedule that is not complete every NextEpoch keeps the index in range and strictly decreases the stages and epochs left, so a schedule reaches TrainingComplete |
| Schedule.CompleteStays | trunk/source/OMLT/OMLT/include/TrainingSchedule.h:31-46 | a complete schedule stays complete and NextEpoch loads nothing |
| Schedule.FirstStep | trunk/source/OMLT/OMLT/include/TrainingSchedule.h:16-52 | the first NextEpoch on a new schedule (index -1, no epochs) loads configuration 0, or completes an empty schedule at once |
| Schedule.Counts | trunk/source/OMLT/OMLT/include/TrainingSchedule.h:76 | the epoch counts are the second halves of the stored pairs, in order |
| Schedule.TrainingSchedule.constructor | trunk/source/OMLT/OMLT/include/TrainingSchedule.h:16-23 | a new schedule keeps the model configuration and minibatch size, holds no configurations, has no epochs remaining and index -1 |
| Schedule.TrainingSchedule.AddTrainingConfig | trunk/source/OMLT/OMLT/include/TrainingSchedule.h:25-28 | the pair is appended and the counters are unchanged |
| Schedule.TrainingSchedule.NextEpoch | trunk/source/OMLT/OMLT/include/TrainingSchedule.h:38-56 | the counters move as Step says; when it returns true out_config is the configuration at the new index and the epochs remaining are its epoch count; otherwise out_config is untouched |
| CdSchedule.ScheduleFrom | trunk/source/OMLT/OMLT/source/TrainingSchedule.cpp:83-177 | an accepted schedule has one entry per array item |
| CdSchedule.ScheduleAccepts | trunk/source/OMLT/OMLT/source/TrainingSchedule.cpp:83-177 | the schedule loop succeeds exactly when every entry has Epochs > 0 and every field it gives in range |
| CdSchedule.Accepts | trunk/source/OMLT/OMLT/source/TrainingSchedule.cpp:12-185 | FromJSON accepts a document exactly when Type is "RBM" or "RestrictedBoltzmannMachine", all five fields are present, both activation names are known, HiddenCount and MinibatchSize are positive, the schedule is non-empty and every entry is valid |
| CdSchedule.ScheduleEntries | trunk/source/OMLT/OMLT/source/TrainingSchedule.cpp:76-177 | in an accepted schedule each entry carries its own Epochs, and its configuration takes each field the entry gives and the previous entry's value for each field it omits |
| CdSchedule.Inherits | trunk/source/OMLT/OMLT/source/TrainingSchedule.cpp:76-177 | in an accepted document entry k carries its Epochs and overrides, field by field, the configuration of entry k - 1, or the zeroed configuration for the first |
| CdSchedule.ScheduleInRange | trunk/source/OMLT/OMLT/source/TrainingSchedule.cpp:105-173 | from a configuration in range, every configuration the loop builds has rates and regularizers at least 0, momentum and dropouts in [0, 1), and a positive epoch count |
| CdSchedule.ParsedInRange | trunk/source/OMLT/OMLT/source/TrainingSchedule.cpp:51-103 | an accepted schedule is non-empty, has known activation types, positive hidden count and minibatch size, and only configurations in range with positive epochs |
| CdSchedule.ContinueStep | trunk/source/OMLT/OMLT/source/TrainingSchedule.cpp:83-177 | one iteration checks an entry and moves it, with its inherited configuration, onto the schedule |
| CdSchedule.FromJson | trunk/source/OMLT/OMLT/source/TrainingSchedule.cpp:8-190 | the sequential checks and the loop with train_config declared outside it compute the document's parse |
| MovingAverage.MovingAverage.Build | source/OMLT/OMLT/source/MovingAverage.cpp:10-19 | a new average holds in_size zeroed entries, index 0 and sum 0, and keeps the ring-buffer invariant (sum is the buffer's sum and the buffer read from index is the window of the last size entries) |
| MovingAverage.MovingAverage.AddEntry | source/OMLT/OMLT/source/MovingAverage.cpp:32-39 | the new value takes slot index, the sum loses the old slot value and gains the new one, index moves to (index + 1) mod size, and the invariant is kept: the buffer still holds exactly the last size entries |
| MovingAverage.MovingAverage.GetAverage | source/OMLT/OMLT/source/MovingAverage.cpp:27-30 | with size 0 the float division 0 / 0 gives NaN, and only then; otherwise the result is the mean of the last size entries ever added, where entries not yet added count as zero; it reads and changes nothing else |
| MovingAverage.PartialWindowSum | source/OMLT/OMLT/source/MovingAverage.cpp:10-30 | before size entries have been added, the zeros Build put in add nothing to the sum |
| MovingAverage.RotationStep | source/OMLT/OMLT/source/MovingAverage.cpp:34-38 | writing slot index and moving the index on drops the oldest entry of the ring and appends the new one |
| MovingAverage.WindowStep | source/OMLT/OMLT/source/MovingAverage.cpp:32-39 | adding an entry moves the window of the last n entries on by one |
| MovingAverage.SumUpdate | source/OMLT/OMLT/source/MovingAverage.cpp:34-36 | overwriting one slot changes the buffer's sum by the new value minus the old one |
| MovingAverage.SumRotation | source/OMLT/OMLT/source/MovingAverage.cpp:27-30 | reading the ring from any index does not change its sum |
| ConfusionMatrix.WrapAdd | source/OMLT/OMLT/include/ConfusionMatrix.h:24-45 | uint32 sums can be wrapped step by step or once at the end |
| ConfusionMatrix.Cell | source/OMLT/OMLT/include/ConfusionMatrix.h:142-145 | cell actual * classes + predicted lies inside the classes * classes array |
| ConfusionMatrix.RowSplit | source/OMLT/OMLT/include/ConfusionMatrix.h:65-73 | a row sum is the sum without column c plus the cell in column c |
| ConfusionMatrix.TotalSplit | source/OMLT/OMLT/include/ConfusionMatrix.h:27-73 | the sum of all cells splits into the cells off row and column c, the cells of column c off row c, and row c |
| ConfusionMatrix.Partition | source/OMLT/OMLT/include/ConfusionMatrix.h:27-73 | TruePositive + FalsePositive + FalseNegative + TrueNegative of any class counts every cell exactly once, as unbounded sums |
| ConfusionMatrix.RowSumUpdate | source/OMLT/OMLT/include/ConfusionMatrix.h:20-25 | changing one cell changes only the row sum of its own row, by the difference |
| ConfusionMatrix.CellsDiffer | source/OMLT/OMLT/include/ConfusionMatrix.h:142-145 | two cells share an array slot exactly when they have the same actual and predicted class |
| ConfusionMatrix.TotalUpdate | source/OMLT/OMLT/include/ConfusionMatrix.h:20-25 | changing one cell changes the total by the difference |
| ConfusionMatrix.IncrementTotal | source/OMLT/OMLT/include/ConfusionMatrix.h:20-25 | incrementing one cell adds one to the total, modulo 2^32 |
| ConfusionMatrix.ConfusionMatrix.constructor | source/OMLT/OMLT/include/ConfusionMatrix.h:8-14 | a new matrix has the given number of classes, every cell 0 and count 0 |
| ConfusionMatrix.ConfusionMatrix.Add | source/OMLT/OMLT/include/ConfusionMatrix.h:20-145 | Add increments the one cell [actual * classes + predicted] and count, each modulo 2^32, leaves every other cell alone, and keeps count equal to the total of all cells |
| ConfusionMatrix.ConfusionMatrix.TruePositive | source/OMLT/OMLT/include/ConfusionMatrix.h:27-30 | TruePositive(c) is the diagonal cell (c, c) |
| ConfusionMatrix.ConfusionMatrix.FalsePositive | source/OMLT/OMLT/include/ConfusionMatrix.h:52-63 | FalsePositive(c) is the sum of column c off the diagonal, modulo 2^32, and changes nothing |
| ConfusionMatrix.ConfusionMatrix.FalseNegative | source/OMLT/OMLT/include/ConfusionMatrix.h:65-73 | FalseNegative(c) is the sum of row c off the diagonal, modulo 2^32, and changes nothing |
| ConfusionMatrix.ConfusionMatrix.TrueNegative | source/OMLT/OMLT/include/ConfusionMatrix.h:32-50 | TrueNegative(c) is the sum of the cells in neither row c nor column c, modulo 2^32, and changes nothing |
| ConfusionMatrix.ZeroRows | source/OMLT/OMLT/include/ConfusionMatrix.h:13 | a zeroed matrix has zero row sums |
| ConfusionMatrix.ZeroTotal | source/OMLT/OMLT/include/ConfusionMatrix.h:11-13 | a zeroed matrix has total 0, matching count 0 |
| ConfusionMatrix.WrapSum4 | source/OMLT/OMLT/include/ConfusionMatrix.h:27-73 | four uint32 results add up modulo 2^32 like their unbounded sums |
| ConfusionMatrix.CountsAddUp | source/OMLT/OMLT/include/ConfusionMatrix.h:24-73 | TruePositive + FalsePositive + FalseNegative + TrueNegative of any class equals count, modulo 2^32 |
| NativeCommon.MultiplierValue | source/VisualRBM/QuickBoltzmannNative/Common.h:23-24 | the "prime" constant evaluates to 2^64 - 2^31 - 1, because 1 << 31 is INT_MIN before the conversion, and not to 2^31 - 1 |
| NativeCommon.ChosenIndex | source/VisualRBM/QuickBoltzmannNative/Common.h:30 | the index drawn for position k (64-bit product, then mod k) is below k |
| NativeCommon.Swap | source/VisualRBM/QuickBoltzmannNative/Common.h:12-18 | the two elements are exchanged, nothing else changes, and the contents stay the same multiset |
| NativeCommon.EmptyShuffleStartsOutside | source/VisualRBM/QuickBoltzmannNative/Common.h:26 | for an empty buffer the uint32 k = in_count - 1 starts at 2^32 - 1, so the loop runs and swaps outside the buffer |
| NativeCommon.Shuffle | source/VisualRBM/QuickBoltzmannNative/Common.h:20-34 | corrected (the loop is skipped for an empty buffer, as the Common.h:26 Findings row says): the buffer ends as a permutation of what it held (same multiset); buffers of fewer than two elements are unchanged |
| NativeCommon.LayoutCovers | source/VisualRBM/QuickBoltzmannNative/Common.h:51-65 | without wrap-around the blocks cover the request rounded up to 16 bytes (block count is the ceiling of bytes / 16), the user size adds 16 bytes of back padding to a request that is not a multiple of 16, and the total size adds the 16-byte alignment offset |
| NativeCommon.AlignedMemoryBlock.constructor | source/VisualRBM/QuickBoltzmannNative/Common.h:40-41 | a new block holds nothing and its block count and user size are 0; the initialiser list leaves `_total_size` unset, so the contract says nothing about totalSize (the body's 0 is a modelling choice) |
| NativeCommon.AlignedMemoryBlock.Release | source/VisualRBM/QuickBoltzmannNative/Common.h:68-78 | the block is freed and the block count, total size and user size all go back to 0 |
| NativeCommon.AlignedMemoryBlock.Acquire | source/VisualRBM/QuickBoltzmannNative/Common.h:47-66 | the old block is released, and the new block is held with the sizes LayoutFor gives for in_count * sizeof(T) bytes and zeroed user memory |
| OmltCommon.BlockCount | trunk/source/OMLT/OMLT/include/Common.h:42-46 | the block count is the ceiling of float_count / 4: 4 blocks' worth covers the floats and one block less would not |
| OmltCommon.BlockCountMatchesLayout | trunk/source/OMLT/OMLT/include/Common.h:42-84 | without wrap-around, BlockCount(n) equals the block count Acquire computes for n floats of 4 bytes |
| OmltCommon.AlignedMemoryBlock.constructor | trunk/source/OMLT/OMLT/include/Common.h:53-54 | a new block holds nothing and all its counts are 0 |
| OmltCommon.AlignedMemoryBlock.Release | trunk/source/OMLT/OMLT/include/Common.h:87-97 | `_head`, `_pointer` and every count go back to 0 |
| OmltCommon.AlignedMemoryBlock.Acquire | trunk/source/OMLT/OMLT/include/Common.h:60-85 | when the computed total size equals the current one nothing changes, old contents included; otherwise the block is released and a zeroed block with the computed total size, user size and block count is held |
| Csv2Idx.ScanLine | trunk/source/Tools/csv2idx/csv2idx.cpp:39-91 | the fgetc loop stops inside the input, after the newline when one ends the line, and at the end of the input otherwise |
| Csv2Idx.KeptOnly | trunk/source/Tools/csv2idx/csv2idx.cpp:61-88 | the loop keeps only digits, + - . e E and ','; an empty result means nothing was kept; a failure stops right after a byte that is neither kept nor blank |
| Csv2Idx.ReadLineAt | trunk/source/Tools/csv2idx/csv2idx.cpp:27-109 | corrected (trailing-comma test guarded and made on every line, as the csv2idx.cpp:57-103 and 92-108 Findings rows say): read_line (with the trailing-comma check it intends) returns a line of kept bytes and moves forward, and reports the end of the file exactly when nothing was kept and no newline was met |
| Csv2Idx.EmptyLineReadsBeforeBuffer | trunk/source/Tools/csv2idx/csv2idx.cpp:57-103 | an empty line leaves length 1, so read_line as written reads line[-1]; the intended read_line returns an empty line |
| Csv2Idx.UnterminatedLastLine | trunk/source/Tools/csv2idx/csv2idx.cpp:92-108 | a last line "3,4," with no newline keeps its comma and counts three cells as written, where the intended read_line strips it and counts two |
| Csv2Idx.UnterminatedLineLosesCell | trunk/source/Tools/csv2idx/csv2idx.cpp:101-105 | as written, a last line "3,4" with no newline or trailing comma has its last byte overwritten by the terminator and keeps one cell, where the intended read_line keeps both |
| Csv2Idx.ReadLine | trunk/source/Tools/csv2idx/csv2idx.cpp:27-109 | the fgetc loop computes the intended read_line |
| Csv2Idx.ReadLineAsWritten | trunk/source/Tools/csv2idx/csv2idx.cpp:27-109 | definition only: read_line as written, including its read of line[length - 2] before the buffer; Csv2Idx.EmptyLineReadsBeforeBuffer, Csv2Idx.UnterminatedLastLine and Csv2Idx.UnterminatedLineLosesCell state its properties |
| Csv2Idx.CommaCount | trunk/source/Tools/csv2idx/csv2idx.cpp:229-233 | the number of commas is at most the length of the line |
| Csv2Idx.TenTo | trunk/source/Tools/csv2idx/csv2idx.cpp:221 | pow(10.0, e) is positive |
| Csv2Idx.ParseFloat | trunk/source/Tools/csv2idx/csv2idx.cpp:113-224 | the loop over parse_float's locals computes the intended parse_float, with exponent digits read as a decimal number |
| Csv2Idx.ParseFloatAsWritten | trunk/source/Tools/csv2idx/csv2idx.cpp:113-224 | definition only: parse_float as written, with the exponent digits summed; Csv2Idx.SummedExponent states what follows from it |
| Csv2Idx.LeadingDigits | trunk/source/Tools/csv2idx/csv2idx.cpp:161-163 | the run of leading digits is all digits and is followed by a non-digit or the end |
| Csv2Idx.AllDigitsCons | trunk/source/Tools/csv2idx/csv2idx.cpp:207-209 | a run of digits is a digit followed by a run of digits |
| Csv2Idx.LeadingDigitsCons | trunk/source/Tools/csv2idx/csv2idx.cpp:161-163 | a leading digit lengthens the leading run by one and leaves what follows unchanged |
| Csv2Idx.FractionTailCons | trunk/source/Tools/csv2idx/csv2idx.cpp:175-178 | a fraction digit leaves what the rest of the text may be unchanged |
| Csv2Idx.IntegerTailCons | trunk/source/Tools/csv2idx/csv2idx.cpp:161-163 | an integer digit leaves what the rest of the text may be unchanged |
| Csv2Idx.AcceptsExponent | trunk/source/Tools/csv2idx/csv2idx.cpp:206-215 | in the Exponent state the rest is taken exactly when it is all digits |
| Csv2Idx.AcceptsExponentSign | trunk/source/Tools/csv2idx/csv2idx.cpp:185-205 | in the ExponentSign state the rest is taken exactly when it is an optional sign followed by digits |
| Csv2Idx.AcceptsFraction | trunk/source/Tools/csv2idx/csv2idx.cpp:170-184 | in the Fraction state the rest is taken exactly when it is digits, then nothing or an exponent |
| Csv2Idx.AcceptsInteger | trunk/source/Tools/csv2idx/csv2idx.cpp:152-169 | in the Integer state the rest is taken exactly when it is digits, then nothing, a fraction or an exponent |
| Csv2Idx.StepState | trunk/source/Tools/csv2idx/csv2idx.cpp:131-216 | a character of the switch is accepted exactly when the state machine has a transition for it, and it moves to that state |
| Csv2Idx.RefusedStaysRefused | trunk/source/Tools/csv2idx/csv2idx.cpp:148-213 | once a character is refused parse_float returns false, whatever follows |
| Csv2Idx.RunThenAccepts | trunk/source/Tools/csv2idx/csv2idx.cpp:129-219 | after a prefix that was taken, the whole text is taken exactly when the state machine takes the rest from where the prefix left it |
| Csv2Idx.FloatAccepts | trunk/source/Tools/csv2idx/csv2idx.cpp:111-224 | parse_float returns true exactly on the empty text or a sign or digit followed by digits, an optional fraction and an optional exponent, in both readings of exponent digits |
| Csv2Idx.DigitsRead | trunk/source/Tools/csv2idx/csv2idx.cpp:142-221 | a plain run of digits is read as its decimal value |
| Csv2Idx.RunSnoc | trunk/source/Tools/csv2idx/csv2idx.cpp:129-219 | one more character is one more step of the switch |
| Csv2Idx.SummedExponent | trunk/source/Tools/csv2idx/csv2idx.cpp:199-209 | "1e10" is read as 10 as written, where the intended reading is 10^10 |
| Csv2Idx.RunOneETen | trunk/source/Tools/csv2idx/csv2idx.cpp:152-215 | after "1e10" the exponent is 1 when digits are summed and 10 when they are shifted in |
| Csv2Idx.TenToTen | trunk/source/Tools/csv2idx/csv2idx.cpp:221 | pow(10.0, 10) is 10^10 |
| Csv2Idx.FractionAndExponent | trunk/source/Tools/csv2idx/csv2idx.cpp:170-215 | "1.5e1" is read as 15 in both readings |
| Csv2Idx.RunOnePointFiveEOne | trunk/source/Tools/csv2idx/csv2idx.cpp:152-215 | after "1.5e1" the integer is 15, one fraction digit was taken and the exponent is 1 |
| Csv2Idx.Cells | trunk/source/Tools/csv2idx/csv2idx.cpp:254-272 | parse_line splits a line into one cell more than it has commas |
| Csv2Idx.ParseCells | trunk/source/Tools/csv2idx/csv2idx.cpp:254-272 | parsing the cells yields one value per cell |
| Csv2Idx.ParseLineAt | trunk/source/Tools/csv2idx/csv2idx.cpp:226-275 | corrected (exponent digits shifted in, as the csv2idx.cpp:199-209 Findings row says): a line parses to as many values as it has cells; it is refused as inconsistent exactly when an earlier line fixed a different cell count |
| Csv2Idx.ParseCellsAt | trunk/source/Tools/csv2idx/csv2idx.cpp:262-269 | corrected (exponent digits shifted in, as the csv2idx.cpp:199-209 Findings row says): each value is the parse of its own cell |
| Csv2Idx.RowValues | trunk/source/Tools/csv2idx/csv2idx.cpp:254-272 | corrected (exponent digits shifted in, as the csv2idx.cpp:199-209 Findings row says, so "1e10" is stored as 10^10): a successful line stores in row_buffer[k] the parse of the k-th cell |
| Csv2Idx.CountCells | trunk/source/Tools/csv2idx/csv2idx.cpp:229-235 | the counting loop gives the number of commas plus one |
| Csv2Idx.RowsAgree | trunk/source/Tools/csv2idx/csv2idx.cpp:238-330 | the rows already converted are kept, whether main finishes or stops at a failing line, and every kept row has the column count of the first row; those rows are what the IDX file holds once Close runs on the error path |
| Csv2Idx.Convert | trunk/source/Tools/csv2idx/csv2idx.cpp:298-310 | corrected (lines read by the intended read_line and cells by the intended parse_float, as the csv2idx.cpp:199-209, 57-103 and 92-108 Findings rows say): the loop of main reads and parses lines until the input ends or a line fails, and computes the outcome ConvertFrom defines; a failing outcome carries the rows accepted before the failing line, which the IDX file keeps because Close runs on the error path (csv2idx.cpp:322-327) |
| Csv2Idx.ParseLine | trunk/source/Tools/csv2idx/csv2idx.cpp:251-274 | corrected (exponent digits shifted in, as the csv2idx.cpp:199-209 Findings row says): parse_line's cell loop computes the line's parse |
| Csv2Idx.BadCellFirst | trunk/source/Tools/csv2idx/csv2idx.cpp:262-267 | parse_line fails at the first cell that does not parse |
| Csv2Idx.BadCellStays | trunk/source/Tools/csv2idx/csv2idx.cpp:262-267 | a failed cell makes the whole line fail, at that cell |
| ShuffleIdx.Iota | trunk/source/Tools/shuffleidx/shuffleidx.cpp:62-65 | index_buffer starts as 0, 1, ..., n - 1 |
| ShuffleIdx.SelectAppend | trunk/source/Tools/shuffleidx/shuffleidx.cpp:78-83 | picking rows by two index lists in turn is picking by their concatenation |
| ShuffleIdx.SelectIota | trunk/source/Tools/shuffleidx/shuffleidx.cpp:62-83 | picking by the identity copies the rows unchanged |
| ShuffleIdx.SelectAround | trunk/source/Tools/shuffleidx/shuffleidx.cpp:78-83 | picking around one index x gives the picks of the rest plus row x |
| ShuffleIdx.RemoveAt | trunk/source/Tools/shuffleidx/shuffleidx.cpp:66-71 | taking one index out of a list leaves the multiset less that index |
| ShuffleIdx.SamePicks | trunk/source/Tools/shuffleidx/shuffleidx.cpp:78-83 | index lists holding the same indices pick the same rows, up to order |
| ShuffleIdx.PermutedCopy | trunk/source/Tools/shuffleidx/shuffleidx.cpp:66-83 | a permutation of 0..n-1 holds only row indices, and the copy loop then writes every input row exactly as often as it occurs, n rows in all |
| ShuffleIdx.EmptyInputSwapsOutside | trunk/source/Tools/shuffleidx/shuffleidx.cpp:57-66 | with 0 rows the first k is 2^32 - 1 > 0, so the loop swaps outside the empty index buffer |
| ShuffleIdx.FillIdentity | trunk/source/Tools/shuffleidx/shuffleidx.cpp:62-65 | the first loop leaves index_buffer[k] = k for every k |
| ShuffleIdx.Partner | trunk/source/Tools/shuffleidx/shuffleidx.cpp:68-69 | the swap partner of position k lies in [0, k], the range of uniform(0, k) |
| ShuffleIdx.SwapPermutes | trunk/source/Tools/shuffleidx/shuffleidx.cpp:70 | swap(index_buffer[j], index_buffer[k]) keeps the length and the multiset of the buffer |
| ShuffleIdx.SwapStep | trunk/source/Tools/shuffleidx/shuffleidx.cpp:66-71 | one turn of the swap loop is the swap at k followed by the swaps below k |
| ShuffleIdx.SwapsFrom | trunk/source/Tools/shuffleidx/shuffleidx.cpp:66-71 | definition only: the index buffer after the swaps at positions k down to 1, the t-th swap exchanging position k with draw(t) mod (k + 1); ShuffleIdx.SwapsFromPermutes states its property |
| ShuffleIdx.ShuffleOrder | trunk/source/Tools/shuffleidx/shuffleidx.cpp:57-72 | definition only: the row order, the identity then the swaps from n - 1 down to 1, a function of the row count and the generator alone, as the usage text's promise (lines 12-14) of the same order for files of equal length needs (the generator is seeded with the constant 1 at line 61); ShuffleIdx.ShuffleOrderPermutes states its property |
| ShuffleIdx.SwapsFromPermutes | trunk/source/Tools/shuffleidx/shuffleidx.cpp:66-71 | the swaps keep the length and the multiset of the index buffer |
| ShuffleIdx.ShuffleOrderPermutes | trunk/source/Tools/shuffleidx/shuffleidx.cpp:57-72 | the shuffled order is a permutation of 0..n-1, for every generator |
| ShuffleIdx.ShuffledIndices | trunk/source/Tools/shuffleidx/shuffleidx.cpp:57-72 | corrected (the swap loop is skipped for 0 rows, as the shuffleidx.cpp:57-66 Findings row says): the Fisher-Yates loop, whose swap partner j lies in [0, k], computes ShuffleOrder(n, draw), which depends only on n and the generator, and so a permutation of 0..n-1; it is skipped when there are no rows |
| ShuffleIdx.CopyRows | trunk/source/Tools/shuffleidx/shuffleidx.cpp:77-83 | output row k is input row index_buffer[k], for exactly row_count rows |
| ShuffleIdx.Shuffle | trunk/source/Tools/shuffleidx/shuffleidx.cpp:22-105 | corrected (the swap loop is skipped for 0 rows, as the shuffleidx.cpp:57-66 Findings row says): shuffleidx succeeds exactly when argc is 3, the input loads and the output can be created, and otherwise fails at the first check that fails; the order is ShuffleOrder of the row count and the generator, the same for all inputs of equal length; the output keeps the byte order and format, has the flat row length, holds the input rows in the shuffled order, and is a well-formed IDX table holding the same rows as the input |
| SplitIdx.WrappedCountAccepted | trunk/source/Tools/splitidx/splitidx.cpp:70 | with two rows, FROM 1 and COUNT 2^32 - 1 the uint32 sum wraps to 0 and passes the test as written, though the rows do not exist |
| SplitIdx.CountTestsAgree | trunk/source/Tools/splitidx/splitidx.cpp:70 | the test as written and the intended test agree whenever from + count does not wrap |
| SplitIdx.CountAcceptedAsWritten | trunk/source/Tools/splitidx/splitidx.cpp:70 | definition only: the count test as written, on the uint32 sum from + count; SplitIdx.WrappedCountAccepted and SplitIdx.CountTestsAgree state its properties |
| SplitIdx.CountAccepted | trunk/source/Tools/splitidx/splitidx.cpp:70 | definition only: the intended count test, from + count at most the row count in exact arithmetic; SplitIdx.SplitFile uses it |
| SplitIdx.CopyRange | trunk/source/Tools/splitidx/splitidx.cpp:84-88 | output row i is input row from + i, for i < count |
| SplitIdx.SplitFile | trunk/source/Tools/splitidx/splitidx.cpp:20-110 | corrected (count test in exact arithmetic): an output file is left exactly when the input loads and the output can be created; after Create every failure (bad FROM, FROM out of range, bad COUNT, COUNT out of range) leaves the header Create wrote, an empty table of the input's byte order, format and row length; fewer than four arguments is a usage error; splitidx succeeds exactly when the input loads, the output can be created, FROM parses and is below the row count and, with a fifth argument, COUNT parses and from + count is at most the row count; FROM out of range and COUNT out of range are reported exactly in their cases; the output keeps byte order and format, has the flat row length, and holds rows from .. from + count - 1, or every row from FROM on without a count |
| CatIdx.NoProblem | trunk/source/Tools/catidx/catidx.cpp:34-80 | the consistency loop finds no problem exactly when every input loads and each one after the first has the first's format, dimension count and non-row dimensions |
| CatIdx.ProblemIsFirst | trunk/source/Tools/catidx/catidx.cpp:34-80 | a reported problem names the first input that does not fit and the test it failed: the load, the format, the dimension count, or a dimension after the row count that differs |
| CatIdx.AllRowsCount | trunk/source/Tools/catidx/catidx.cpp:96-105 | the inputs' rows taken in argument order number the sum of their row counts |
| CatIdx.AllRowsSnoc | trunk/source/Tools/catidx/catidx.cpp:96-105 | taking one more input appends its rows |
| CatIdx.Capped | trunk/source/Tools/catidx/catidx.cpp:103 | AddRow keeps at most 2^32 - 1 rows, a prefix of what it is given, and everything when that fits |
| CatIdx.CappedSnoc | trunk/source/Tools/catidx/catidx.cpp:103 | one more AddRow appends the row unless the output already holds 2^32 - 1 rows |
| CatIdx.RowsOfFitting | trunk/source/Tools/catidx/catidx.cpp:57-105 | when every input fits, every row copied has the first input's row length |
| CatIdx.OutputConsistent | trunk/source/Tools/catidx/catidx.cpp:84-107 | the output, created with the first input's dimensions after the row count, is a well-formed IDX table |
| CatIdx.NothingDropped | trunk/source/Tools/catidx/catidx.cpp:96-105 | below 2^32 - 1 rows in all, the output holds every input row in argument order, and its row count is the sum of the inputs' |
| CatIdx.Concatenate | trunk/source/Tools/catidx/catidx.cpp:12-144 | fewer than two inputs is a usage error; a failed check rejects with the first problem; the output is written exactly when every input fits and the output can be created, and it is the little-endian concatenation with the first input's format and non-row dimensions |
| FlagTable.FirstPrefix | source/Tools/cltrain/cltrain.cpp:110-118 | a match found from entry j on is an entry at or after j that is no longer than the argument |
| FlagTable.FirstPrefixFirst | source/Tools/cltrain/cltrain.cpp:110-118 | the entry found begins the argument and no earlier entry does; none is found exactly when no entry begins it |
| FlagTable.FlagOf | source/Tools/cltrain/cltrain.cpp:110-118 | the entry found by strncmp is in the table and no longer than the argument |
| FlagTable.FlagOfFirst | source/Tools/cltrain/cltrain.cpp:110-118 | the first matching entry wins, and -1 means no entry begins the argument |
| FlagTable.CommonPrefix | source/Tools/cltrain/cltrain.cpp:113 | two prefixes of one string: the shorter begins the longer |
| FlagTable.OnlyMatch | source/Tools/cltrain/cltrain.cpp:104-118 | in a table where no entry begins another, the entry that begins the argument is the one found |
| FlagTable.FindFlag | source/Tools/cltrain/cltrain.cpp:109-118 | the search loop returns the index of the first entry that begins the argument, or -1 |
| FlagTable.NoValues | source/Tools/cltrain/cltrain.cpp:105 | arguments[] starts with every entry unset |
| FlagTable.Step | source/Tools/cltrain/cltrain.cpp:107-137 | one turn of the loop keeps one value slot per flag |
| FlagTable.Collect | source/Tools/cltrain/cltrain.cpp:107-137 | the values after the loop have one slot per flag |
| FlagTable.CollectSnoc | source/Tools/cltrain/cltrain.cpp:107-137 | one more argument is one more turn of the loop |
| FlagTable.RecordsStep | source/Tools/cltrain/cltrain.cpp:125-129 | storing a new flag's suffix keeps the record exact |
| FlagTable.RecordsSkip | source/Tools/cltrain/cltrain.cpp:107-137 | an argument with no entry that is skipped leaves the record exact |
| FlagTable.Accepted | source/Tools/cltrain/cltrain.cpp:107-137 | arguments that each have an entry and repeat none get through the loop, each entry holding its argument's suffix |
| FlagTable.BreaksAt | source/Tools/cltrain/cltrain.cpp:120-136 | the first argument to break the rule has no entry, or repeats an earlier one |
| FlagTable.Refused | source/Tools/cltrain/cltrain.cpp:120-136 | an unknown argument or a repeated flag stops the loop with an error |
| FlagTable.CollectValues | source/Tools/cltrain/cltrain.cpp:107-137 | the loop succeeds exactly when every argument has an entry and no flag is given twice; then an entry is set exactly when some argument carries it, to the rest of that argument |
| FlagTable.EachFlagOnce | source/Tools/cltrain/cltrain.cpp:107-137 | arguments that give each flag once, in table order, set every flag to its argument's suffix |
| FlagTable.StopsAt | source/Tools/cltrain/cltrain.cpp:123-135 | once the loop has returned Error, later arguments do not change the outcome |
| FlagTable.CollectFlags | source/Tools/cltrain/cltrain.cpp:107-137 | the command-line loop computes the values, or stops at the first unknown argument or first repeated flag |
| Cltrain.Flags | source/Tools/cltrain/cltrain.cpp:90-104 | the flag table has the nine flags of the Arguments enumeration, in its order |
| Cltrain.AtlasSize | source/Tools/cltrain/cltrain.cpp:349-358 | without -atlasSize= the atlas size is 512; with it the size is its %u value, accepted exactly when the scan succeeds and gives at least 128 |
| Cltrain.HandleArguments | source/Tools/cltrain/cltrain.cpp:88-362 | handle_arguments succeeds exactly when the flag loop accepts every argument and the checks after it all pass; it then reports the schedule's model type, whether -quiet was given, and the atlas size |
| Cltrain.AcceptedArguments | source/Tools/cltrain/cltrain.cpp:140-288 | accepted arguments name a schedule, training data and an export file; they give -trainingLabels= exactly when the schedule is an MLP's, and -validationLabels= only beside -validationData= |
| Cltrain.LargeIsRatio | source/Tools/cltrain/cltrain.cpp:367-377 | the test a_size / total > 0.75 is 4 * a_size > 3 * total, on exact values |
| Cltrain.ScaledTest | source/Tools/cltrain/cltrain.cpp:377 | for t > 0, q > 0.75 exactly when 4 (q t) > 3 t |
| Cltrain.RatioOrder | source/Tools/cltrain/cltrain.cpp:397 | comparing the two ratios over one total compares the two sizes |
| Cltrain.FixedHalvesOverflowTotal | source/Tools/cltrain/cltrain.cpp:379 | with a total of 256 two large data sets get 256 each as written, 512 in all |
| Cltrain.WrappedSumFits | source/Tools/cltrain/cltrain.cpp:371 | two data sets of 2^31 MB wrap their uint32 sum to 0 and are both taken as fitting into 512 MB |
| Cltrain.Partition | source/Tools/cltrain/cltrain.cpp:365-408 | corrected (exact sum and halves of the total, as the cltrain.cpp:371 and 379 Findings rows say): when a + b < total the outputs equal the inputs; otherwise they add up to the total and neither exceeds its own size, and outside the 50:50 case one of the two is held entirely |
| Cltrain.PartitionsAgree | source/Tools/cltrain/cltrain.cpp:365-408 | the function as written and the corrected one agree whenever the sum does not wrap and the split is not 50:50 |
| Cltrain.PartitionAsWritten | source/Tools/cltrain/cltrain.cpp:365-408 | definition only: GetOptimalParitioning as written, with a + b compared as a uint32 sum and 256 for each data set in the 50:50 case; Cltrain.PartitionsAgree, Cltrain.FixedHalvesOverflowTotal and Cltrain.WrappedSumFits state its properties |
| BuildMlp.FlagFromSpelling | trunk/source/Tools/buildmlp/buildmlp.cpp:46-57 | the scan from entry k finds a flag exactly when the token is spelled as one of entries k..3, and then finds that entry's flag |
| BuildMlp.ParseFlagSpellings | trunk/source/Tools/buildmlp/buildmlp.cpp:46-57 | parse_flag maps "-f", "-t", "-o" and "-n" to Forward, Transpose, Output and Layers, and every other token to Invalid |
| BuildMlp.FindFlag | trunk/source/Tools/buildmlp/buildmlp.cpp:46-57 | parse_flag's loop computes the flag of the token |
| BuildMlp.RunSnoc | trunk/source/Tools/buildmlp/buildmlp.cpp:102-226 | one more token is one more turn of the state machine |
| BuildMlp.Next | trunk/source/Tools/buildmlp/buildmlp.cpp:107-214 | definition only: the state switch of the argument loop: the next state for each current state and flag, with START and FILENAME one state |
| BuildMlp.Step | trunk/source/Tools/buildmlp/buildmlp.cpp:104-225 | definition only: one turn of the argument loop: the next state, then the action of that state on the token (store a file, scan IDX or COUNT, take the output name); BuildMlp.StepSound states the invariant it keeps |
| BuildMlp.Run | trunk/source/Tools/buildmlp/buildmlp.cpp:102-226 | definition only: the argument loop over argv[1..], failing for good at the first error; BuildMlp.RunSnoc and BuildMlp.RunSound state its properties |
| BuildMlp.RangeAsWritten | trunk/source/Tools/buildmlp/buildmlp.cpp:299-317 | definition only: the layer indices the copy loop visits for a range, idx to idx + count in uint32, never compared with the layer count; the buildmlp range finding states its consequence |
| BuildMlp.Opened | trunk/source/Tools/buildmlp/buildmlp.cpp:102-226 | definition only: the file opened with "wb" while the command line is read, the output of the longest prefix the loop accepts; BuildMlp.StaysOpened and BuildMlp.ErrorAfterOutputEmpties state its properties |
| BuildMlp.StaysOpened | trunk/source/Tools/buildmlp/buildmlp.cpp:175-221 | tokens after the loop has returned -1 open nothing |
| BuildMlp.ErrorAfterOutputEmpties | trunk/source/Tools/buildmlp/buildmlp.cpp:165-221 | a token after "-o FILE" is an error and leaves FILE opened, and so truncated |
| BuildMlp.FailsHere | trunk/source/Tools/buildmlp/buildmlp.cpp:175-221 | when the loop returns -1 at a token, the file opened is the one the accepted tokens named |
| BuildMlp.ParseArguments | trunk/source/Tools/buildmlp/buildmlp.cpp:92-227 | the command-line loop computes the state machine's run, returning -1 at the first token it refuses, and the file it opened with "wb" on the way |
| BuildMlp.StaysFailed | trunk/source/Tools/buildmlp/buildmlp.cpp:175-221 | once the loop has returned -1 nothing after it is looked at |
| BuildMlp.StepSound | trunk/source/Tools/buildmlp/buildmlp.cpp:104-225 | every token keeps idx and count pending only in the IDX and COUNT states, COUNT positive, an output file exactly in OUT_FILENAME, and every recorded file with no range or a positive count |
| BuildMlp.RunSound | trunk/source/Tools/buildmlp/buildmlp.cpp:102-226 | every run the loop accepts ends in such a state |
| BuildMlp.NothingAfterOutput | trunk/source/Tools/buildmlp/buildmlp.cpp:165-170 | after the output file name any further token is an error |
| BuildMlp.PlainFiles | trunk/source/Tools/buildmlp/buildmlp.cpp:109-188 | tokens that are not flags are recorded in order as model files, untransposed and with no range |
| BuildMlp.StepsOfRange | trunk/source/Tools/buildmlp/buildmlp.cpp:118-214 | "-n INDEX COUNT" moves through N, IDX and COUNT, storing the two %u values |
| BuildMlp.RangeGiven | trunk/source/Tools/buildmlp/buildmlp.cpp:156-214 | "-n INDEX COUNT" after a file sets the pending range, COUNT positive |
| BuildMlp.RangedFile | trunk/source/Tools/buildmlp/buildmlp.cpp:162-188 | "-n INDEX COUNT FILE" records FILE with that range, leaves the transpose setting alone and resets the range to 0 |
| BuildMlp.TransposedFile | trunk/source/Tools/buildmlp/buildmlp.cpp:115-194 | "-t FILE" records FILE transposed, and the setting stays for later files |
| BuildMlp.MissingOutputParses | trunk/source/Tools/buildmlp/buildmlp.cpp:90-345 | a lone model file is accepted with no output file, after which main writes through a null FILE* |
| BuildMlp.RangePastLastLayer | trunk/source/Tools/buildmlp/buildmlp.cpp:299-317 | a range of layers 1 and 2 of a two-layer MLP is visited, past its last layer |
| BuildMlp.LayersOf | trunk/source/Tools/buildmlp/buildmlp.cpp:250-320 | corrected (a range past the MLP's layers is refused, as the buildmlp.cpp:299-317 Findings row says): an RBM or autoencoder gives one layer, hidden to visible when transposed; an MLP cannot be transposed and gives its layers in range, or all of them without a range, and a range past its layers is refused |
| BuildMlp.CheckDimensions | trunk/source/Tools/buildmlp/buildmlp.cpp:323-332 | the dimension check passes exactly when each layer's outputs equal the next layer's inputs |
| BuildMlp.AllLayersSome | trunk/source/Tools/buildmlp/buildmlp.cpp:246-321 | collecting the layers of all model files succeeds exactly when no file's layer selection is refused (a transposed MLP, or a range past its last layer) |
| BuildMlp.CollectLayers | trunk/source/Tools/buildmlp/buildmlp.cpp:246-321 | the construction loop gives every model file's layers in command-line order, and fails exactly when some file's selection is refused |
| BuildMlp.Refused | trunk/source/Tools/buildmlp/buildmlp.cpp:289-295 | a refused model file makes the whole construction fail |
| BuildMlp.Build | trunk/source/Tools/buildmlp/buildmlp.cpp:82-348 | corrected (an output file is required, as the buildmlp.cpp:90-345 Findings row says): with no arguments buildmlp prints its usage; it writes an MLP exactly when the command line is accepted with an output file, every model loads, every file's layers are accepted and their dimensions chain, and then writes to the named output the layers built; on every other outcome the file opened during argument parsing, if any, is left truncated to nothing, and after a load, build or dimension error that is always the named output |
| BuildMlp.Loaded | trunk/source/Tools/buildmlp/buildmlp.cpp:229-244 | one model per recorded file |
| BuildMlp.Plan | trunk/source/Tools/buildmlp/buildmlp.cpp:229-321 | a plan exists only when every model file loads |
| ParameterFile.Lower | trunk/source/VisualRBM/clrbm/clrbm.cpp:138-140 | capital letters are lowered by 'a' - 'A' and every other character is kept |
| ParameterFile.FilteredToClean | trunk/source/VisualRBM/clrbm/clrbm.cpp:132-162 | every prefix of the filter's output is clean: no blank, carriage return, '%' or capital, and no two newlines in a row |
| ParameterFile.FilteredClean | trunk/source/VisualRBM/clrbm/clrbm.cpp:132-162 | the filter's whole output is clean |
| ParameterFile.CleanFixedTo | trunk/source/VisualRBM/clrbm/clrbm.cpp:132-162 | on clean text the filter writes every character of each prefix back unchanged |
| ParameterFile.CleanFixed | trunk/source/VisualRBM/clrbm/clrbm.cpp:132-162 | the filter leaves clean text unchanged |
| ParameterFile.FilterIdempotent | trunk/source/VisualRBM/clrbm/clrbm.cpp:132-162 | filtering twice gives what filtering once gives |
| ParameterFile.PiecesSnoc | trunk/source/VisualRBM/clrbm/clrbm.cpp:145-160 | one more written character either closes the current line (a newline) or extends it |
| ParameterFile.TrailingBlankLosesLine | trunk/source/VisualRBM/clrbm/clrbm.cpp:151-156 | as written, the file "a " yields no line at all, because the last line is pushed only when the file's last character is written; the corrected splitting yields the line "a" |
| ParameterFile.CleanPieces | trunk/source/VisualRBM/clrbm/clrbm.cpp:132-162 | clean text cuts into line pieces with no newline, blank or capital, none empty except the first and an empty last piece after a final newline |
| ParameterFile.LinesClean | trunk/source/VisualRBM/clrbm/clrbm.cpp:132-162 | every line found is lowered and free of blanks, and only the first line can be empty |
| ParameterFile.Lines | trunk/source/VisualRBM/clrbm/clrbm.cpp:132-162 | definition only: the intended lines of the filtered text: each newline-terminated piece and a non-empty unterminated last piece; ParameterFile.LinesClean states its properties |
| ParameterFile.LinesAsWritten | trunk/source/VisualRBM/clrbm/clrbm.cpp:132-162 | definition only: the lines as the loop writes them, pushing the last piece only from the branch for a written final character; ParameterFile.TrailingBlankLosesLine states the difference |
| ParameterFile.FileParameters | trunk/source/VisualRBM/clrbm/clrbm.cpp:87-416 | definition only: load_parameters on the file's contents, None when the file does not open, with the lines read as written (FileLines(s, false), the loop of clrbm.cpp:132-162) or corrected; Clrbm.SuccessHasRequired states the range checks a loaded file passes |
| ParameterFile.JoinClean | trunk/source/VisualRBM/clrbm/clrbm.cpp:685-698 | non-empty lines of line text joined with newlines form clean text ending in a newline |
| ParameterFile.JoinPieces | trunk/source/VisualRBM/clrbm/clrbm.cpp:685-698 | such joined text cuts back into exactly its lines, followed by an empty final piece |
| ParameterFile.JoinedLines | trunk/source/VisualRBM/clrbm/clrbm.cpp:132-162 | the lines found in such joined text are exactly the joined lines, in order |
| ParameterFile.SplitLines | trunk/source/VisualRBM/clrbm/clrbm.cpp:122-162 | corrected (the unterminated last line is always kept, as the clrbm.cpp:151-156 Findings row says): the line-filtering loop returns exactly the lines of the filtered file, the unterminated last line included |
| ParameterFile.SplitLinesAsWritten | trunk/source/VisualRBM/clrbm/clrbm.cpp:132-162 | as written: the line-filtering loop returns exactly LinesAsWritten of the file, pushing the unterminated last line only from the branch for a kept final character that is not a newline |
| ParameterFile.FilterStep | trunk/source/VisualRBM/clrbm/clrbm.cpp:136-156 | one character of the filter loop: a kept character is appended lowered, and the loop's final-character branch runs exactly when the last character is kept and is not a newline |
| ParameterFile.Keys | trunk/source/VisualRBM/clrbm/clrbm.cpp:55-69 | the twelve "key=" strings, in the order of the parameter enumeration |
| ParameterFile.KeyIndex | trunk/source/VisualRBM/clrbm/clrbm.cpp:55-69 | the key a line can begin with, read from its first letters, or none |
| ParameterFile.KeyIndexOfPrefix | trunk/source/VisualRBM/clrbm/clrbm.cpp:55-69 | a line that begins with a key is recognised as that key |
| ParameterFile.KeysPrefixFree | trunk/source/VisualRBM/clrbm/clrbm.cpp:55-184 | no key begins another, so a line matches at most one key |
| ParameterFile.CollectKeys | trunk/source/VisualRBM/clrbm/clrbm.cpp:166-185 | the value-finding loop, which tries every key on every line, gives the first-match collection: each key's value is the rest of its line, and a key on two lines is an error |
| ParameterFile.Count | trunk/source/VisualRBM/clrbm/clrbm.cpp:222-238 | an unsigned parameter is its default when absent, and otherwise accepted exactly when "%u" reads a positive value, which it then is |
| ParameterFile.Real | trunk/source/VisualRBM/clrbm/clrbm.cpp:241-352 | a real parameter is its default when absent, and otherwise accepted exactly when "%f" reads a value within its range, which it then is |
| ParameterFile.Visible | trunk/source/VisualRBM/clrbm/clrbm.cpp:201-220 | visible_type is accepted exactly when absent, "binary" or "gaussian", and is Gaussian exactly when it is "gaussian" |
| ParameterFile.Settle | trunk/source/VisualRBM/clrbm/clrbm.cpp:187-416 | the parameters parse exactly when the model is absent or "rbm" and every other value passes its check; the result has positive hidden units, learning rate, minibatch size, epochs and print interval, momentum in [0,1], non-negative regularisation and both dropouts in [0,1) |
| ParameterFile.NothingGivenDefaults | trunk/source/VisualRBM/clrbm/clrbm.cpp:187-416 | a file with no keys gives every default: binary units, 100 hidden units, rate 0.001, momentum 0.5, no regularisation, dropouts 0 and 0.5, minibatch 10, 100 epochs and a print interval of 500 |
| ParameterFile.LoadParameters | trunk/source/VisualRBM/clrbm/clrbm.cpp:87-416 | load_parameters, as written (lines by SplitLinesAsWritten) or corrected (lines by SplitLines): a file that does not open fails; otherwise the result is the checked values of the keys found on the file's lines |
| ParameterFile.DuplicateKeyRefused | trunk/source/VisualRBM/clrbm/clrbm.cpp:174-182 | a key on two lines makes the file fail to load, with the lines read as written or corrected |
| ParameterFile.DefaultLines | trunk/source/VisualRBM/clrbm/clrbm.cpp:690-693 | one line per key: the key followed by its param_defaults text |
| ParameterFile.DefaultValues | trunk/source/VisualRBM/clrbm/clrbm.cpp:71-85 | every key set to its param_defaults text |
| ParameterFile.DefaultLineKey | trunk/source/VisualRBM/clrbm/clrbm.cpp:55-85 | each written default line is recognised as its own key with the default text as its value |
| ParameterFile.DefaultsFileLines | trunk/source/VisualRBM/clrbm/clrbm.cpp:685-698 | the lines found in the defaults file are exactly the written default lines |
| ParameterFile.DefaultLinesKeys | trunk/source/VisualRBM/clrbm/clrbm.cpp:55-85 | every default line selects its own key and carries its default text |
| ParameterFile.DefaultLinesLoad | trunk/source/VisualRBM/clrbm/clrbm.cpp:166-185 | the default lines load every key with its default text and no duplicate |
| ParameterFile.DefaultsReload | trunk/source/VisualRBM/clrbm/clrbm.cpp:87-185 | the file -defaults writes ends in a newline, so it loads back with every key at its param_defaults text whether its lines are read as written or corrected |
| Clrbm.Flags | trunk/source/VisualRBM/clrbm/clrbm.cpp:426-440 | the seven clrbm flags in the order of the Arguments enumeration: -train=, -valid=, -params=, -import=, -export=, -quiet, -defaults |
| Clrbm.Checks | trunk/source/VisualRBM/clrbm/clrbm.cpp:475-545 | after the flag loop: -defaults always answers CreateDefaults; success exactly when -train=, -params= and -export= are given, the training file loads, the parameter file parses (its lines read as written or corrected), an -import= file loads and (only in the corrected variant) a -valid= file loads; the settings carry the parsed parameters, the validation and import outcomes, the export name and quiet mode |
| Clrbm.HandleArguments | trunk/source/VisualRBM/clrbm/clrbm.cpp:426-545 | corrected (validation load checked, unterminated parameter line kept, as the clrbm.cpp:507-512 and 151-156 Findings rows say): handle_arguments returns exactly what the flag collection followed by the checks decide |
| Clrbm.Handle | trunk/source/VisualRBM/clrbm/clrbm.cpp:426-545 | definition only: handle_arguments, as written or corrected: the flag loop, then the checks; Clrbm.HandleArguments, Clrbm.FlagsDecideFirst and Clrbm.SuccessHasRequired state its properties |
| Clrbm.FlagsDecideFirst | trunk/source/VisualRBM/clrbm/clrbm.cpp:443-478 | an argument matching no flag, or a flag given twice, is an error; otherwise -defaults wins, and CreateDefaults is answered only when -defaults was given |
| Clrbm.SuccessHasRequired | trunk/source/VisualRBM/clrbm/clrbm.cpp:191-416 | a successful run was given -train=, -params= and -export= but not -defaults, its export name is the text after -export=, and its parameters satisfy the range checks (hidden units, learning rate, minibatch size, epochs and print interval all positive) |
| Clrbm.ValidationPresent | trunk/source/VisualRBM/clrbm/clrbm.cpp:507-512 | with the validation load checked, a successful run has validation data exactly when -valid= was given |
| Clrbm.ValidationLoadUnchecked | trunk/source/VisualRBM/clrbm/clrbm.cpp:507-512 | as written, a -valid= file that fails to load leaves the outcome identical to giving no -valid= at all; with the load checked the same input is an error unless -defaults was given |
| Clrbm.Program | trunk/source/VisualRBM/clrbm/clrbm.cpp:549-699 | main: no arguments print the usage text; training starts exactly when handle_arguments succeeds, as written (failed validation load ignored, parameter lines read by the loop as written) or corrected (load checked, unterminated last line kept); -defaults writes the defaults file |
| Clrbm.MainIgnoresValidation | trunk/source/VisualRBM/clrbm/clrbm.cpp:507-556 | main as written trains with a -valid= file that fails to load exactly when it would train without the -valid= argument; main with the load checked never trains on such arguments |
| Clrbm.WrittenDefaultsReload | trunk/source/VisualRBM/clrbm/clrbm.cpp:685-698 | the default.vrbmparameters file written for -defaults parses back with every one of the twelve keys at its default text, whether its lines are read as written or corrected |
| SettingsBar.BodyFits | trunk/source/VisualRBM/VisualRBM/SettingsBar.cs:329-333 | the uint32 sums res + one and res + 2 * one in the loop body never wrap |
| SettingsBar.DigitsStart | trunk/source/VisualRBM/VisualRBM/SettingsBar.cs:319-325 | when the first loop stops, one is the largest power of four not above the input, or 0 for input 0, and the digit loop's invariant holds with root 0 |
| SettingsBar.DigitStep | trunk/source/VisualRBM/VisualRBM/SettingsBar.cs:327-336 | one pass of the digit loop keeps the invariant, adding the current bit to the root exactly when op >= res + one |
| SettingsBar.Advance | trunk/source/VisualRBM/VisualRBM/SettingsBar.cs:327-336 | the state after one pass of the digit loop satisfies the invariant again, and one reaches 0 together with the bit |
| SettingsBar.SquareRoot | trunk/source/VisualRBM/VisualRBM/SettingsBar.cs:315-338 | SquareRoot returns the integer square root: root^2 <= n < (root + 1)^2 |
| SettingsBar.RootUnique | trunk/source/VisualRBM/VisualRBM/SettingsBar.cs:315-338 | at most one number satisfies the square-root contract, so the result is determined |
| SettingsBar.ImageSize | trunk/source/VisualRBM/VisualRBM/SettingsBar.cs:363-367 | the image width is the integer square root of the visible unit count and the height the least number of rows of that width holding every unit; the height is at least the width |
| SettingsBar.RowsCover | trunk/source/VisualRBM/VisualRBM/SettingsBar.cs:365-367 | n / w full rows leave fewer than w values over, and there are at least w of them when w^2 <= n |
| SettingsBar.UpdateMomentum | trunk/source/VisualRBM/VisualRBM/SettingsBar.cs:577-597 | parsed momentum is clamped to [0, 1] and is reported as a change exactly when it differs from the current value; unparsable text leaves the value and reports nothing |
| SettingsBar.UpdateDropout | trunk/source/VisualRBM/VisualRBM/SettingsBar.cs:679-726 | a dropout value is taken, and reported, exactly when it parses, lies in [0, 1) and differs from the current one |
| SettingsBar.UpdateEpochs | trunk/source/VisualRBM/VisualRBM/SettingsBar.cs:787-818 | a parsed epoch count different from the current one is set, 0 being raised to 1, and reported; anything else leaves the count |
| SettingsBar.EpochsStayPositive | trunk/source/VisualRBM/VisualRBM/SettingsBar.cs:793-800 | a positive epoch count stays positive after any update |
| SettingsBar.ZeroEpochsReported | trunk/source/VisualRBM/VisualRBM/SettingsBar.cs:793-800 | entering 0 when the count is 1 reports a change while the count stays 1, because the comparison precedes the raise |
| SettingsBar.UpdatesSettle | trunk/source/VisualRBM/VisualRBM/SettingsBar.cs:577-818 | entering the same text a second time changes nothing and reports nothing (for epochs, unless the text is 0) |
| ToolTip.TokensTo | trunk/source/VisualRBM/VisualRBM/SettingsBar.cs:218 | String.Split on the four separators gives at least one piece, empty pieces included |
| ToolTip.SeparatorStep | trunk/source/VisualRBM/VisualRBM/SettingsBar.cs:218 | a separator closes the current piece and opens an empty one without changing the characters held |
| ToolTip.CharStep | trunk/source/VisualRBM/VisualRBM/SettingsBar.cs:218 | any other character extends the current piece by itself |
| ToolTip.TokensContent | trunk/source/VisualRBM/VisualRBM/SettingsBar.cs:218 | the pieces hold no separator and, taken in order, every other character of the text |
| ToolTip.SpacedSnoc | trunk/source/VisualRBM/VisualRBM/SettingsBar.cs:230-231 | each token is written followed by a single space |
| ToolTip.LinesTo | trunk/source/VisualRBM/VisualRBM/SettingsBar.cs:221-233 | the layout of the first k tokens always has a current line |
| ToolTip.RenderPlace | trunk/source/VisualRBM/VisualRBM/SettingsBar.cs:224-232 | writing one token adds a newline exactly when the current length plus the token's passes 50, then the token and a space |
| ToolTip.WrapTokens | trunk/source/VisualRBM/VisualRBM/SettingsBar.cs:216-234 | the writing loop produces exactly the rendering of the greedy layout of the tokens, keeping current_length equal to the current line's written length |
| ToolTip.ToolTipText | trunk/source/VisualRBM/VisualRBM/SettingsBar.cs:210-234 | SetToolTip's text is the greedy layout of the Split tokens of s |
| ToolTip.Tokens | trunk/source/VisualRBM/VisualRBM/SettingsBar.cs:218 | definition only: String.Split on the four separators; ToolTip.TokensTo, ToolTip.TokensContent, ToolTip.SeparatorStep and ToolTip.CharStep state its properties |
| ToolTip.Wrapped | trunk/source/VisualRBM/VisualRBM/SettingsBar.cs:221-233 | definition only: the greedy layout of the tokens on lines; ToolTip.WrappedLines states its properties |
| ToolTip.Render | trunk/source/VisualRBM/VisualRBM/SettingsBar.cs:224-232 | definition only: the text of a layout, lines joined by newlines and each token followed by a space; ToolTip.RenderPlace states the effect of one token |
| ToolTip.PlaceFlatten | trunk/source/VisualRBM/VisualRBM/SettingsBar.cs:221-233 | placing a token appends it after all earlier tokens |
| ToolTip.PlaceWellWrapped | trunk/source/VisualRBM/VisualRBM/SettingsBar.cs:224-232 | placing a token keeps the layout greedy (each new line starts with a token that did not fit) and every line of two or more tokens within 51 characters |
| ToolTip.WrappedLines | trunk/source/VisualRBM/VisualRBM/SettingsBar.cs:221-233 | the layout of the first k tokens is greedy and within the width, and holds exactly those tokens in order |
| ToolTip.ToolTipLayout | trunk/source/VisualRBM/VisualRBM/SettingsBar.cs:210-234 | the tooltip for s lays out exactly the tokens of s in order, greedily and within the width, and the tokens hold every non-separator character of s and nothing else |
| ParameterDialog.Start | trunk/source/VisualRBM/VisualRBM/SettingsBar.cs:1011 | String.Trim's start: the first character that is not white space, everything before it being white space |
| ParameterDialog.End | trunk/source/VisualRBM/VisualRBM/SettingsBar.cs:1011 | String.Trim's end: the position after the last character that is not white space, everything after it being white space |
| ParameterDialog.Trim | trunk/source/VisualRBM/VisualRBM/SettingsBar.cs:1011-1023 | a trimmed text is empty or begins and ends with a character that is not white space |
| ParameterDialog.TrimParts | trunk/source/VisualRBM/VisualRBM/SettingsBar.cs:1011 | Trim removes only white space, and only from the two ends |
| ParameterDialog.TrimTrim | trunk/source/VisualRBM/VisualRBM/SettingsBar.cs:1011-1023 | trimming a trimmed text changes nothing |
| ParameterDialog.FirstEquals | trunk/source/VisualRBM/VisualRBM/SettingsBar.cs:1014 | the first '=' at or after i, with no '=' before it |
| ParameterDialog.FirstEqualsFound | trunk/source/VisualRBM/VisualRBM/SettingsBar.cs:1014-1016 | a text holding an '=' has a first one |
| ParameterDialog.Classify | trunk/source/VisualRBM/VisualRBM/SettingsBar.cs:1011-1023 | a line is blank exactly when its trimmed text is empty, and malformed exactly when that text does not hold exactly one '=' (Split('=') does not give two parts) |
| ParameterDialog.Kinds | trunk/source/VisualRBM/VisualRBM/SettingsBar.cs:1008-1011 | every line read is classified, in order |
| ParameterDialog.ReadLine | trunk/source/VisualRBM/VisualRBM/SettingsBar.cs:1010-1038 | one pass of the read loop: trim, split at '=', check the key is valid and new, and add it with its trimmed value |
| ParameterDialog.ReadParameterMap | trunk/source/VisualRBM/VisualRBM/SettingsBar.cs:1000-1040 | the read loop fills parameter_map exactly as the line-by-line specification does, stopping at the first bad line |
| ParameterDialog.StopsAfter | trunk/source/VisualRBM/VisualRBM/SettingsBar.cs:1018-1035 | once a line has stopped the loop, later lines change nothing |
| ParameterDialog.HoldsStep | trunk/source/VisualRBM/VisualRBM/SettingsBar.cs:1032-1038 | an acceptable line keeps the map equal to the pairs of the lines read so far |
| ParameterDialog.StepFails | trunk/source/VisualRBM/VisualRBM/SettingsBar.cs:1016-1036 | the first line that is malformed, has an unknown key or repeats a key stops the loop |
| ParameterDialog.LoadToMeaning | trunk/source/VisualRBM/VisualRBM/SettingsBar.cs:1008-1040 | the first n lines load exactly when every non-blank one is key=value with a valid key and no key repeats, and the map then holds each line's value under its key and nothing else |
| ParameterDialog.LoadToErrors | trunk/source/VisualRBM/VisualRBM/SettingsBar.cs:1016-1036 | each error names the line that stopped the loop (its number counted from 1), every earlier line being acceptable: a line without exactly one '=', a key outside valid_keys, or a key an earlier line gave |
| ParameterDialog.LoadMeaning | trunk/source/VisualRBM/VisualRBM/SettingsBar.cs:1000-1040 | the file's lines load exactly when they are acceptable, into the map of their trimmed pairs |

## Left out

- I/O is modelled on byte sequences: file handles, seeks, partial reads and `fopen`/`fclose` failures other than "could not open". Opening a file is an `Option` parameter.
- Floating point is modelled by `real`, with exact arithmetic. The bit patterns of `float` and `double` cells are their unsigned bit patterns, mapped to values by a `float` function parameter where the source computes with the values. `exp`, `ln`, `Random.Next` and the formatting of `write(double)` are function parameters (`render`, `draw`).
- The GPU and OpenGL trainers, the training loops of cltrain and clrbm, the SiCKL code, threads and message queues, SIMD helpers and the WinForms UI are not part of this model.
- IdxCs: the `ReadRow(double[])` overload is not modelled. It fills a 4-byte stack buffer with 8 bytes, which is undefined behaviour.
- IdxCs: `Debug.Assert` checks are modelled as preconditions. Aliasing of the caller's row buffers is not modelled.
- IdxPy.Idx.AddRow: cells are bit patterns, so the range test of `struct.pack` is modelled as the pattern fitting the cell width; the signed and float ranges are not modelled. The same holds for IdxPy.Idx.AddRowAsWritten and IdxPy.Idx.WriteRow.
- RbmCs.ReadSingles: the source reads four bytes into a 2-byte `stackalloc` buffer, which is undefined behaviour. The model reads the four bytes as intended.
- RbmCs: `ReadUInt8`'s assert on the end of the stream is a precondition of the loader. Aliasing of the input and output arrays of the Calc methods is not modelled.
- RbmHpp.Rbm.Load: requires a file of at least 4 bytes and, when the magic matches, one that holds every count and float the loader reads. A short `fread` leaves undefined contents, so this case is not modelled.
- JsonReader: the exponent is an unbounded integer, while the source keeps it in an `int32_t`.
- JsonItems: the loaders see the reader through the token list. `write_array` of floats is abstracted to its number items.
- Mlp and RbmJson: the cJSON tree is modelled as an already-parsed document value. The cJSON parser, `cJSON_Delete` (including the MLP loader's double delete on a bad row) and the accessors are not modelled.
- Mlp: a layer whose `Type` field is absent in the cJSON loader is taken as a name mismatch.
- Mlp.MultilayerPerceptron.FeedForward: the per-layer computation (`Layer::FeedForward`) is an opaque parameter. An activation buffer is modelled by the values last written to it, so its block padding and the aliasing of the first and last slots with the caller's arrays are not modelled. The `Layer*` pointers shared between the vector and callers are not modelled.
- MovingAverage.MovingAverage.AddEntry: requires size > 0, because with size 0 the write to buffer[index] is outside the buffer and (index + 1) % 0 is an integer division by zero, both undefined.
- IdxCpp.LoadHeader: with a dimension count of 0 the size test reads the row count from a zero-sized allocation, which is undefined; the model rejects such a header.
- IdxCpp.Idx.Create: when the row dimension count + 1 is a multiple of 256 the stored uint8 count wraps to 0, and storing the row count 0 writes into a zero-sized allocation, which is undefined; the model returns NULL there.
- Schedule.TrainingSchedule.AddTrainingConfig: requires fewer than 2^32 - 1 entries after the append, because the source counts them in a `uint32_t`.
- CdSchedule: the `BackPropagation` specialisation of `FromJSON`, which returns nullptr, is not modelled. `FromJson` returns a parsed value rather than a heap object.
- ConfusionMatrix.ConfusionMatrix.constructor: requires classes^2 < 2^32, the size of the `uint32_t` cell count. The floating-point Accuracy, Precision, Recall and Specificity and `Print` are not modelled.
- Cltrain.LargeIsRatio: the ratio tests use exact rationals. Float rounding of `a_size / total` is not modelled.
- Clrbm: `sscanf` is the `scan` and `scanReal` parameters. Loading the IDX and RBM files is the `Environment` outcome. Training, the log output and the exported model are not modelled.
- SettingsBar.ImageSize: requires at least one visible unit, because the source divides by zero without one.
- SettingsBar: the message boxes and control updates of the event handlers are not modelled, nor the tool-tip control itself.
- ParameterDialog: values are parsed after the read loop of `loadParametersButton_Click` (from line 1043), and those steps are not modelled.
- Csv2Idx.Convert: models main with the intended read_line and parse_float. As written, read_line reads line[-1] on an empty line, which is undefined, so the as-written reading of a whole file is not modelled; ReadLineAsWritten and ParseFloatAsWritten model single lines and cells as written.
- NativeCommon.Shuffle: models shuffle with the loop skipped for an empty buffer. As written, k = in_count - 1 wraps to 2^32 - 1 and the loop swaps outside the buffer, which is undefined, so that case has no as-written outcome beyond NativeCommon.EmptyShuffleStartsOutside.
- IdxCs.Idx.WriteRow: the index is a `u32`. The SInt8 overload (IDX.cs:487-494) takes an `int`, and C# compares and multiplies it with the `uint` fields as a `long`, so a negative index passes the `index < _rows` assert. The position header + row bytes * index then lies before the rows: the write overwrites header bytes (index -1 on an SInt8 file with one row dimension of 3 writes bytes 9-11, inside the row-length dimension), or throws once the position is negative. Neither case is modelled. The same holds for IdxCs.Idx.WriteRowAsWritten, whose index is also a `u32`.
- BuildMlp.Build: layers are modelled by their shapes (inputs, outputs, activation). The weights copied from each RBM, autoencoder or MLP (buildmlp.cpp:261-315) and the JSON text that `ToJSON` writes are not modelled.
- ShuffleIdx.Shuffle: models main with the swap loop skipped for 0 rows. As written, the loop indexes outside the empty buffer, which is undefined, so that case has no as-written outcome beyond ShuffleIdx.EmptyInputSwapsOutside.
- IdxPy.Idx.ReadRow: requires an open file. After `close`, IDX.py's methods raise AttributeError on `None.seek`; that error is not modelled. The same holds for IdxPy.Idx.AddRowAsWritten, IdxPy.Idx.AddRow and IdxPy.Idx.WriteRow.
- RbmCs.Rbm.NormalizeVisibleVector: requires every standard deviation to be non-zero. RBM.cs divides anyway and gets an infinity or NaN; float arithmetic is modelled as exact reals, so that case is not modelled.
- IdxCs.Idx.WriteRowAsWritten: requires the incremented row count to stay below 2^32. C#'s unchecked `uint` increment wraps to 0 instead; that wrap is not modelled.
- RbmHpp.Rbm.constructor: allocates V * H floats in exact arithmetic. In RBM.hpp the `uint16_t` product is computed in `int` and overflows, which is undefined, once V * H exceeds 2^31 - 1 (both counts 46341, say); that case is not modelled.
- The near-duplicate readers are not part of this model: the native IDX readers, joinidx, idx2csv, idxinfo, image2csv and the web explorer.

## Findings

| source | as written | input that shows it | evidently intended | confidence | as-written member | corrected member |
|---|---|---|---|---|---|---|
| trunk/helpers/IDX.cs:119-121 | the endianness marker is decoded as 255 * b0 + b1 | the little-endian marker FF FF gives 65280, so the assert rejects every little-endian file | 256 * b0 + b1, which gives 0 or 65535 | high, not executed | IdxCs.EndiannessAsWritten, IdxCs.EndiannessAsWrittenRejectsLittle | IdxCs.EndiannessMarkers, IdxCs.ParseHeader, IdxCs.Idx.Read |
| trunk/helpers/IDX.cs:282-297 | AddRows writes count * row length zero bytes | one SInt32 row of one cell: 1 byte written where 4 are needed | count * row length in bytes | high, not executed | IdxCs.Idx.AddRowsAsWritten, IdxCs.AddRowsAsWrittenTruncates | IdxCs.Idx.AddRows |
| trunk/helpers/IDX.cs:475-650 | the byte overload of WriteRow writes at row `rows`, and the byte and float overloads add one to the row count | rewriting row 0 of a one-row file leaves a count of two | write at `index` and leave the count alone | high, not executed | IdxCs.Idx.WriteRowAsWritten, IdxCs.WriteRowAsWrittenCountsRow | IdxCs.Idx.WriteRow |
| helpers/IDX.py:244-264 | add_row increments a dimension held in a tuple after `load` | a file loaded writable: the row is written, then the increment raises TypeError and the row is not counted | count the row, as after `create` | high, not executed | IdxPy.Idx.AddRowAsWritten, IdxPy.UncountedRowBreaksFile | IdxPy.Idx.AddRow |
| trunk/helpers/RBM.cs:431-437 | the Linear free-energy term squares b_i * v_i | bias 1 and input 1 give 1 | the Gaussian term (v_i - b_i)^2, which is 0 there | medium, not executed | RbmCs.Rbm.CalcFreeEnergyAsWritten, RbmCs.ProductSquaresAtBiases | RbmCs.Rbm.CalcFreeEnergy, RbmCs.DistanceSquaresAtBiases |
| trunk/source/Tools/csv2idx/csv2idx.cpp:199-209 | the exponent digits are summed | "1e10" is read as 10 | the exponent 10, giving 10^10 | high, not executed | Csv2Idx.ParseFloatAsWritten, Csv2Idx.SummedExponent | Csv2Idx.ParseFloatAt, Csv2Idx.ParseFloat, Csv2Idx.ParseLineAt, Csv2Idx.ParseCellsAt, Csv2Idx.RowValues, Csv2Idx.ParseLine, Csv2Idx.Convert |
| trunk/source/Tools/csv2idx/csv2idx.cpp:57-103 | read_line tests line[length - 2] for a trailing comma | an empty line "\n" reads line[-1] | an empty line | high, not executed | Csv2Idx.ReadLineAsWritten, Csv2Idx.EmptyLineReadsBeforeBuffer | Csv2Idx.ReadLineAt, Csv2Idx.ReadLine, Csv2Idx.Convert |
| trunk/source/Tools/csv2idx/csv2idx.cpp:92-108 | the trailing comma is stripped only when a newline ends the line | a last line "3,4," with no newline counts three cells; a last line "3,4" loses its 4 | two cells in both cases, as for a terminated line | high, not executed | Csv2Idx.ReadLineAsWritten, Csv2Idx.UnterminatedLastLine, Csv2Idx.UnterminatedLineLosesCell | Csv2Idx.ReadLineAt, Csv2Idx.ReadLine, Csv2Idx.Convert |
| source/VisualRBM/QuickBoltzmannNative/Common.h:26 | the shuffle starts at k = in_count - 1 in uint32 | an empty buffer: k = 2^32 - 1 > 1, and the loop swaps outside it | no swaps for an empty buffer | high, not executed | NativeCommon.EmptyShuffleStartsOutside | NativeCommon.Shuffle |
| trunk/source/Tools/shuffleidx/shuffleidx.cpp:57-66 | the shuffle starts at k = row_count - 1 in uint32 | 0 rows: k = 2^32 - 1, and the loop swaps outside the empty buffer | no swaps for an empty input | high, not executed | ShuffleIdx.FirstPosition, ShuffleIdx.EmptyInputSwapsOutside | ShuffleIdx.ShuffledIndices, ShuffleIdx.Shuffle |
| trunk/source/Tools/splitidx/splitidx.cpp:70 | from + count is compared as a uint32 sum | 2 rows, FROM 1, COUNT 2^32 - 1: the sum wraps to 0 and passes | reject counts beyond the remaining rows | high, not executed | SplitIdx.CountAcceptedAsWritten, SplitIdx.WrappedCountAccepted | SplitIdx.CountAccepted, SplitIdx.SplitFile |
| source/Tools/cltrain/cltrain.cpp:379 | the 50:50 branch gives each data set 256 | total 256 and two data sets of 1000: 512 in all | half of the total each | medium, not executed | Cltrain.PartitionAsWritten, Cltrain.FixedHalvesOverflowTotal | Cltrain.Partition |
| source/Tools/cltrain/cltrain.cpp:371 | a + b is a uint32 sum | two data sets of 2^31 wrap to 0 and are taken as fitting | compare the exact sum | low, not executed | Cltrain.PartitionAsWritten, Cltrain.WrappedSumFits | Cltrain.Partition |
| trunk/source/Tools/buildmlp/buildmlp.cpp:90-345 | a missing output file passes argument handling | a lone `-f model.json`: main then writes through a null FILE* | require `-o` | high, not executed | BuildMlp.MissingOutputParses | BuildMlp.Build |
| trunk/source/Tools/buildmlp/buildmlp.cpp:299-317 | the layer range idx .. idx + count is never compared with the MLP's layer count | IDX 1 and COUNT 2 on a two-layer MLP visit layer 2, past its last layer | refuse a range beyond the MLP's layers | medium, not executed | BuildMlp.RangeAsWritten, BuildMlp.RangePastLastLayer | BuildMlp.LayersOf |
| trunk/source/VisualRBM/clrbm/clrbm.cpp:507-512 | a failed load of the validation file is reported and ignored | a `-valid=` naming a file that cannot be loaded trains as if it were absent | an argument error | medium, not executed | Clrbm.ValidationLoadUnchecked, Clrbm.MainIgnoresValidation, Clrbm.Program | Clrbm.HandleArguments, Clrbm.ValidationPresent, Clrbm.Program |
| trunk/source/VisualRBM/clrbm/clrbm.cpp:151-156 | the last line is pushed only when the file's last character is written | the file "a " yields no line | the line "a" | high, not executed | ParameterFile.LinesAsWritten, ParameterFile.TrailingBlankLosesLine, ParameterFile.SplitLinesAsWritten, ParameterFile.LoadParameters, Clrbm.Program | ParameterFile.SplitLines, ParameterFile.Lines, ParameterFile.LoadParameters, Clrbm.HandleArguments, Clrbm.Program |
| trunk/source/OMLT/OMLT/source/MultilayerPerceptron.cpp:284-330 | the streaming FromJSON does not consume a layer's EndObject, and it ignores the result of AddLayer (line 329) | every network with a layer that ToJSON writes fails to load; past that, a layer AddLayer refuses would be dropped silently | consume the EndObject, so written networks read back, and fail the load when AddLayer refuses a layer | high, not executed | Mlp.FirstLayerAsWritten, Mlp.FirstLayerStuck, Mlp.WrittenNotReadBack, Mlp.RefusedLayerDropped | Mlp.ReadStream, Mlp.StreamRoundTrip, Mlp.RefusedLayerDropped |
| trunk/source/OMLT/OMLT/source/MultilayerPerceptron.cpp:201-240 | the cJSON loader ignores AddLayer's result and skips a layer whose sizes do not match its arrays | a second layer with 2 inputs after one output loads as a one-layer network; a layer with no bias is dropped | fail the load | medium, not executed | Mlp.MismatchDropped, Mlp.ShortLayerSkipped | Mlp.FromDocument, Mlp.CorrectedAgrees |
| source/OMLT/OMLT/source/RestrictedBoltzmannMachine.cpp:177-205 | the cJSON FromJSON accepts zero unit counts | a document with counts 0 and empty arrays loads a machine with no units | refuse it, as the streaming loader does | low, not executed | RbmJson.EmptyMachineAccepted | RbmJson.ReadDocument, RbmJson.EmptyCheckOnly |
