# GRIB2 codec and GEMPAK helpers: a verified model

This project models the GRIB edition 2 codec of `grib2/` (FM 92 GRIB, WMO-No. 306, Volume I.2) and
three algorithms of `gempak/`, and proves what their users rely on.

- **Bit I/O.** `BitIO` has `gbits` and `sbits` on octet arrays, against big-endian bit strings
  (`BitString`). `FieldIO` and `SignMagnitude` build on them.
- **Complex packing.** `ComplexFormat` says which bits a field packs to and what a decoder makes of
  any bits; `ComplexRoundTrip` proves the second undoes the first, and exactly when.
  `ComplexEncoder` and `ComplexDecoder` are `compack`/`misspack` and `comunpack` as loops over
  arrays, `ComplexPacking` joins them to the group search. A point is data, primary missing or
  secondary missing (`Cells`); `compack` is the case with no missing points, and the three
  copies of each loop for the three missing options are one.
- **Group search.** `GroupSplit`, `GroupReduce` and `GroupPack` are `g2_pack_gp` and `g2_reduce`:
  group A being built, group B ahead of it, lookback, absorption, restarts and the in-place
  reduction, and why each group ends where it does. Stretches are half-open ranges; positions that the code remembers are one-based.
- **Widths, room and scaling.** `LeastWidths` proves that every width settled on is the least that
  serves, `PackingRoom` bounds the packed size over all partitions, `ComplexScaling` is
  the way from reals to integers and back, missing values included.
- **Messages.** `Templates`, `SectionFormat` and `Sections` give the sections as bit strings,
  `Message` the builder as a state machine over calls, `MessageBuilder` its routines on the octet
  array; the checks with which they start are those of `SectionWalk`, on any octets.
  `TemplateFields` says, apart from the tables, what FM 92 has at which octet, and
  `TemplateMeaning` that sections are so laid out.
  `SectionReader`, `MessageReader` and `MessageInfo` are the readers on arbitrary octets;
  `MessageLayout` says in octets what `g2_info` accepts,
  `MessageWalk` specifies the loop of `g2_getfld` and proves exactly when it ends.
- **Agreement.** `MessageAgreement` proves what the reader returns after any run of the builder, with
  the messages of `MessageCases` for what is lost. `DataSection` is `g2_unpack7` for templates 5.0,
  5.2 and 5.3, and `DataAgreement` joins all: the values given to `g2_addfield` come back from
  `g2_getfld`, which `FieldTrip` carries out on octets from the reals to the reals.
- **GEMPAK.** `ParameterSearch` (binary search with a remembered near miss), `ScanOrder` (16
  scanning modes), `Calendar` (dates and forecast times).
- **Numbers.** `Powers`, `Ieee` and `SimplePacking`.

Integers are unbounded except where a width matters; reals are exact and `rint` is rounding to the
nearest integer, ties to even. `ceil(log(x)/log(2))` is the least w with x <= 2^w. Allocation
always succeeds. Masks and shifts are the recursive functions of `Shifts`, proved equal to
remainder, division and multiplication.

Where the code and its documentation differ, the model follows the code: `bb_find` compares the
number of matching characters with the position, so it accepts any octets at the start of a buffer,
and `g2_info` any four octets in place of "GRIB"; the table of the cross-section grid (3.1000) has
the latitude of its last point unsigned, where FM 92 has it signed; a field that begins with a long
run of one value can end in a shorter group than `g2_pack_gp` promises; the builder takes any message that ends in "7777"
for complete.

## Model
| member | source | states |
|---|---|---|
| BitIO.GetField | grib2/gbits.c:34-60 | one field of any width at any bit offset is the big-endian value of those bits of the octet string |
| BitIO.Gbits | grib2/gbits.c:14-61 | fields at any offset, width and stride are those of the bit string |
| BitIO.PutField | grib2/gbits.c:86-122 | one field of any width: its low bits replace exactly that stretch of the bit string, in two's complement when negative |
| BitIO.StoreOctet | grib2/gbits.c:94-121 | masking low bits into part of one octet extends the field stored so far towards its high end, no other bit changed |
| BitIO.Sbits | grib2/gbits.c:64-124 | storing fields at any offset, width and stride changes the bit string to the specified one |
| BitIO.FetchStored | grib2/gbits.c:34-122 | what `sbits` stored `gbits` fetches back, each value modulo 2^width, for every offset, stride and count |
| BitIO.StoredElsewhere | grib2/gbits.c:86-122 | no bit outside the written fields changes |
| BitIO.SbitsRun | grib2/gbits.c:86-122 | fields with no gap replace one stretch by the concatenated encodings |
| BitIO.GbitsRun | grib2/gbits.c:34-60 | fields with no gap are the successive fields of the rest of the bit string |
| BitString.DecEncAll | grib2/gbits.c:34-122 | a run of fields followed by anything decodes to the values modulo 2^width |
| BitString.BitsInjective | grib2/gbits.c:34-122 | octet strings with the same bits are equal, so the bit-string view loses nothing |
| SignMagnitude.SignedRoundTrip | grib2/comunpack.c:139-143 | a sign bit and a magnitude read back give every value whose magnitude fits |
| FieldIO.Append | grib2/compack.c:172-175 | one field behind what is laid down, octets behind it kept |
| FieldIO.AppendSigned | grib2/compack.c:198-208 | a sign bit and a magnitude behind what is laid down |
| FieldIO.AppendPad | grib2/compack.c:290-295 | zeros up to the octet after a stretch of bits |
| FieldIO.ReadSigned | grib2/comunpack.c:139-143 | the value of a sign bit and a magnitude |
| Differencing.DifferenceInPlace | grib2/compack.c:126-148 | the backward loops turn the live part of the array into the differences less their minimum, after `order` zeros, and return the first values and that minimum |
| Differencing.DiffFirst | grib2/misspack.c:174-176 | going backwards, each value less its predecessor, in place |
| Differencing.DiffSecond | grib2/misspack.c:181-184 | going backwards, second differences in place |
| Differencing.LeastFrom | grib2/misspack.c:189-191 | the least difference, 0 when there is none |
| Differencing.SumInPlace | grib2/comunpack.c:343-363 | the forward loops turn the array into the sums, in place |
| Differencing.SummedUnique | grib2/comunpack.c:343-363 | a sequence that satisfies the recurrence at every point is the sum |
| Differencing.SummedResidual | grib2/comunpack.c:343-363 | summing undoes differencing for order 0, 1 and 2, every field and every length |
| Differencing.ResidualNonnegative | grib2/compack.c:145-148 | what is left to pack is never negative, and touches 0 |
| ComplexFormat.CodeRoundTrip | grib2/misspack.c:335-372 | every code fits its group's width and stands for its own point only: the all-ones markers never collide with data |
| LeastWidths.WidthIsLeast | grib2/misspack.c:322-358 | a width can hold a group under some reference, missing markers included, if and only if it is at least the settled one, which does so with the settled reference |
| LeastWidths.SpreadLeast | grib2/compack.c:262-264 | a width holds values under some reference, with codes left free at the top, if and only if it reaches their range |
| LeastWidths.MissingWidth | grib2/misspack.c:322-334 | the same of groups without data: none for one kind of missing point, one bit for both |
| LeastWidths.DataBitsLeast | grib2/compack.c:363-373 | for given groups no choice of widths that hold them packs the data into fewer bits |
| LeastWidths.DescriptorsLeast | grib2/compack.c:282-342 | the widths of references, of group widths and of group lengths are the least that hold them |
| LeastWidths.HeaderLeast | grib2/compack.c:149-165 | the octets of the differencing header are the least in which all three values fit with their signs |
| ComplexFormat.RefInRange | grib2/misspack.c:382-394 | every stored group reference fits its width, and the markers of all-missing groups are told from every data reference |
| ComplexFormat.LensRoundTrip | grib2/compack.c:335-359 | group lengths are recovered although the stored length of the last group may be cut off |
| Shifts.CeilLog2 | grib2/compack.c:263-264 | the least width whose powers of two reach a value |
| ComplexFormat.FetchRunExact | grib2/compack.c:285-296 | a run of values that fit, padded to an octet and followed by anything, is read back and the rest left |
| ComplexFormat.GroupRoundTrip | grib2/comunpack.c:260-336 | one group of any kind is read back from its codes, or from its reference alone when its width is 0 |
| ComplexFormat.WidthsRoundTrip | grib2/compack.c:304-323 | group widths are recovered from their reference and the packed differences |
| ComplexFormat.FetchHeaderBits | grib2/compack.c:171-209 | the differencing header is read back, signs included |
| ComplexFormat.GroupsRoundTrip | grib2/comunpack.c:260-336 | the packed groups, followed by anything, are read back as the flattened groups, and take as many bits as the length check computes |
| ComplexRoundTrip.DecodePacked | grib2/g2_pack_gp.c:156-158 | every encodable field is decoded exactly, for every order, missing option and partition into nonempty groups, whatever octets follow, and no length check trips |
| ComplexRoundTrip.AllSecondaryDecoded | grib2/misspack.c:382-407 | a field of secondary missing points only is decoded as primary missing points |
| ComplexRoundTrip.RoundTripExactly | grib2/misspack.c:145-496 | the round trip holds if and only if the field is not one of secondary missing points alone under option 2 |
| ComplexDecoder.ReadHeader | grib2/comunpack.c:133-170 | the differencing header, with its bounds checks, is what the format says |
| ComplexDecoder.NextSigned | grib2/comunpack.c:135-143 | one signed value of the header with its bounds check |
| ComplexDecoder.ReadRun | grib2/comunpack.c:176-237 | references, widths and lengths with their padding, or the error when the octets run out |
| ComplexDecoder.UnpackWide | grib2/comunpack.c:294-318 | missing points are marked and the data moved up in place: the compaction never overwrites a value not yet read |
| ComplexDecoder.UnpackPlain | grib2/comunpack.c:263-273 | without missing points the reference is added where the values stand |
| ComplexDecoder.UnpackFlat | grib2/comunpack.c:319-334 | a group of width 0 repeats its reference or a missing marker |
| ComplexDecoder.ReadGroup | grib2/comunpack.c:263-334 | a group's data follow the data so far, whatever its kind and the missing option |
| ComplexDecoder.ReadGroups | grib2/comunpack.c:260-336 | all groups: the data gathered at the front of the array and the map of missing points are those of the specified cells |
| ComplexDecoder.Totals | grib2/comunpack.c:243-248 | the bit and point totals that the consistency checks use |
| ComplexDecoder.Assemble | grib2/comunpack.c:373-386 | data and missing points are put back in grid order |
| ComplexDecoder.UnpackGroups | grib2/comunpack.c:243-386 | the checks on totals, the groups, the sums and the placing of missing points, as the format specifies |
| ComplexDecoder.Comunpack | grib2/comunpack.c:75-402 | on any octets every read stays inside the buffer, and the field or the error return is what the format specifies, orders beyond 2 included, so the round trip of the format is that of the routine |
| ComplexEncoder.AppendHeader | grib2/compack.c:149-210 | the differencing header in the least number of whole octets that holds its values |
| ComplexEncoder.BitsForHeader | grib2/compack.c:153-165 | the width computed is the least multiple of 8 that holds each header value and its sign |
| ComplexEncoder.Tally | grib2/misspack.c:315-321 | counts of data, primary and secondary points decide the kind of group |
| ComplexEncoder.DataExtremes | grib2/misspack.c:338-347 | least and greatest data value of a group with missing points among them |
| ComplexEncoder.Describe | grib2/misspack.c:322-358 | reference and least width of each kind of group |
| ComplexEncoder.Encode | grib2/misspack.c:359-373 | the group's values are replaced in place by their codes, other groups untouched |
| ComplexEncoder.DescribeAll | grib2/misspack.c:313-374 | all groups are described and coded in place |
| ComplexEncoder.AppendRun | grib2/compack.c:287-295 | a run of descriptors padded with zeros to an octet |
| ComplexEncoder.PackData | grib2/compack.c:363-373 | the data of all groups, their lengths and widths restored from the packed ones and the references |
| ComplexEncoder.Plan | grib2/compack.c:282-342 | the template entries are those of the format: least widths, references, last length |
| ComplexEncoder.Range | grib2/compack.c:304-309 | least and greatest of a list |
| ComplexEncoder.Lay | grib2/compack.c:282-380 | the octets are the descriptors and data of the format, padded; octets behind them are kept |
| ComplexEncoder.LayData | grib2/compack.c:363-380 | data and final padding behind the descriptors |
| ComplexPacking.Gather | grib2/misspack.c:145-166 | the data gathered at the front, with the class of every point |
| ComplexPacking.Differenced | grib2/misspack.c:145-192 | what is left after gathering and differencing, and its header |
| ComplexPacking.Markers | grib2/misspack.c:259-262 | the stand-ins for missing points lie below all data |
| ComplexPacking.Spread | grib2/misspack.c:263-275 | the data go back to the grid with stand-ins at the missing points |
| ComplexPacking.FindGroups | grib2/misspack.c:256-308 | the expanded grid and a partition of it into nonempty groups |
| ComplexPacking.GroupLengths | grib2/compack.c:229-241 | a partition into nonempty groups, no more than allowed for, whose lengths are those of an explained pass over groups of ten points with single steps |
| ComplexPacking.PackField | grib2/compack.c:126-380 | from a field of data and missing points: a partition is found, and template and octets are those of the format for it |
| ComplexPacking.PackAndUnpack | grib2/g2_pack_gp.c:156-158 | packing and unpacking through the octet array gives the field back, point for point, exactly unless it consists of secondary missing points alone under option 2 |
| PackingRoom.PackedBound | grib2/compack.c:171-380 | a bound on the packed bits over all partitions: header, descriptors, data and padding |
| PackingRoom.DataBound | grib2/compack.c:363-380 | the data take at most as many bits as points times the greatest width |
| PackingRoom.TemplateBound | grib2/compack.c:282-342 | no descriptor is wider than the greatest residual needs |
| PackingRoom.RoomEnough | grib2/compack.c:126-380 | a buffer of that size holds whatever partition the search finds |
| PackingRoom.AllocatedIsEnough | grib2/g2_addfield.c:307-309 | the buffer that `g2_addfield` allocates is enough for residuals below 2^25 - 2 and header values below 2^31 |
| PackingRoom.PackAllocated | grib2/g2_addfield.c:307-313 | so packing into it and unpacking gives the field back |
| ComplexScaling.FindLeast | grib2/misspack.c:101-126 | the least value that is not missing, 10^37 without any |
| ComplexScaling.CodeNear | grib2/compack.c:105-119 | scaled with or without binary scale, a value is unscaled to within half a step |
| ComplexScaling.CodeAtLeast | grib2/compack.c:105-119 | no code is negative, and that of the least value is 0 |
| ComplexScaling.CellsEncodable | grib2/misspack.c:145-166 | every scaled field is one that can be encoded |
| ComplexScaling.PackReals | grib2/compack.c:83-413 | reals are scaled, classified and packed; a field of one value takes no octets |
| ComplexScaling.UnpackReals | grib2/comunpack.c:71-127 | on any octets, the decoded integers are unscaled and missing points get their values |
| ComplexScaling.RealsRestored | grib2/comunpack.c:364-386 | data come back within half a step and missing points exactly, if and only if the field is not one of secondary missing points alone; whatever octets follow |
| ComplexScaling.RealsRestoredWith | grib2/comunpack.c:364-386 | unscaled with another reference the data move by its distance at most, and a field of secondary missing points alone is lost at every tolerance |
| ComplexScaling.ConstantRestored | grib2/compack.c:387-391 | a field of one value comes back as its reference |
| ComplexScaling.PackAndUnpackReals | grib2/misspack.c:84-529 | packing and unpacking through the octet array, with the same exact condition |
| GroupSplit.ScanStrict | grib2/g2_pack_gp.c:506-560 | extremes of a stretch and where they first occur, missing points skipped |
| GroupSplit.ScanOn | grib2/g2_pack_gp.c:676-733 | scanning on from known extremes gives the extremes of the longer stretch |
| GroupSplit.RunEnd | grib2/g2_pack_gp.c:630-651 | the end of the longest run of equal values |
| GroupSplit.WidthFrom | grib2/g2_pack_gp.c:583-593 | the least width from a start that holds a range, or beyond 30 |
| GroupSplit.Candidate | grib2/g2_pack_gp.c:735-765 | a scanned stretch, all missing or not, becomes a group that fits |
| GroupSplit.FirstGroup | grib2/g2_pack_gp.c:401-601 | the first group takes a long run of one value up to the first point that breaks it; its extremes are known and its width is the least |
| GroupSplit.Lookahead | grib2/g2_pack_gp.c:619-765 | group B from the current point: its points fit its bounds and width, also when only its new end is scanned because its extremes survive |
| GroupSplit.Lookback | grib2/g2_pack_gp.c:780-903 | the most of A's last points that fit B's width move into B, in all three missing modes |
| GroupSplit.Recut | grib2/g2_pack_gp.c:917-1012 | what is left of A has sound bounds again, and its least width |
| GroupSplit.NoNarrower | grib2/g2_pack_gp.c:780-784 | a group that took in all of A cannot be narrower than A's least width, so lookback leaves A a point |
| GroupSplit.GiveBack | grib2/g2_pack_gp.c:780-1013 | A hands its last points to a narrower B as far back as they fit it: before the new end stands a point that B has no room for, or A is used up |
| GroupSplit.TryAbsorb | grib2/g2_pack_gp.c:1023-1141 | the next points join A if and only if its width has room for them; if not, some point lies outside its range and two values to be held are too far apart for the width |
| GroupSplit.ScanNext | grib2/g2_pack_gp.c:1049-1114 | extremes of A together with the points to be added |
| GroupSplit.DrawnBackTaken | grib2/g2_pack_gp.c:655-672 | while B's end is drawn back along a run, A takes the next point, so stale statistics never become a group |
| GroupSplit.TrailGoesOn | grib2/g2_pack_gp.c:607-672 | the run ahead of B stays in sight from one lookahead to the next |
| GroupSplit.BuildGroup | grib2/g2_pack_gp.c:607-1172 | A, B and the points between them after one group: both hold their points. A is closed for one of three reasons: it has grown and B is narrower; B is narrower and has taken in points back to one that does not fit it; or the next points do not fit A. It grew point by point only where the stretch ahead needs no fewer bits |
| GroupSplit.SplitOnce | grib2/g2_pack_gp.c:375-1232 | one pass with room for ndg groups tiles the field, with extremes that occur when steps are single; every group is closed for one of the three reasons of `BuildGroup` and begins as the group that was looked ahead to; the last of several groups has more than lminpk/2 points, as the code promises, if and only if the field does not begin with a run of one value that ends within lminpk/2 points of its end |
| GroupSplit.ShortLast | grib2/g2_pack_gp.c:418-430 | twenty points of one value and one of another: two groups, the last too short |
| GroupReduce.FirstGuess | grib2/g2_reduce.c:178-196 | the first number of pieces tried is enough, so the retry loop never turns |
| GroupReduce.BoxesLeast | grib2/g2_reduce.c:171-203 | the number of extra pieces is the least that fits the width |
| GroupReduce.CountBoxes | grib2/g2_reduce.c:171-206 | pieces of one group for a width of lengths |
| GroupReduce.AllBoxes | grib2/g2_reduce.c:164-206 | pieces of all groups for a width, and their total |
| GroupReduce.Search | grib2/g2_reduce.c:156-257 | the first width from kbit down after which one bit less saves nothing, with its boxes and cost; none if and only if every bit down to 2 saves |
| GroupReduce.BottomUnique | grib2/g2_reduce.c:213-216 | there is at most one such width, and none if the cost falls all the way |
| GroupReduce.SoundPieces | grib2/g2_reduce.c:308-341 | a group that passes the check is cut into pieces of 0 to 2^kbit - 1 stored points, none negative |
| GroupReduce.SoundExactly | grib2/g2_reduce.c:306-341 | a row passes the check if and only if full pieces leave something for the first, or even pieces leave it no more than one of them |
| GroupReduce.CutRow | grib2/g2_reduce.c:345-359 | the pieces of a group are written backwards in place without touching groups not yet read |
| GroupReduce.Expand | grib2/g2_reduce.c:295-369 | all rows are cut in place, the last first, into their pieces in order; 714 if and only if some row fails the check |
| GroupReduce.CutFits | grib2/g2_reduce.c:345-373 | every new length fits the new width |
| GroupReduce.Reduce | grib2/g2_reduce.c:122-376 | with one row, or when the search runs out, nothing changes; otherwise, at the width of `Search`: rows unchanged if and only if the gain is below 2%, 715 if the pieces have no room, 714 if some row cannot be cut, and else the rows cut to that width |
| GroupPack.CutCover | grib2/g2_reduce.c:345-359 | after a cut the true lengths still add up group by group, over the same points and bounds |
| GroupPack.TilesCover | grib2/g2_pack_gp.c:1196-1200 | groups built one after another cover the field in order |
| GroupPack.SplitKeeps | grib2/g2_reduce.c:295-373 | a split keeps the cover, and all descriptors fit, the lengths in the new width |
| GroupPack.Describe | grib2/g2_pack_gp.c:1241-1393 | references removed and markers set; the references are the least values and the widths the least that hold what is left |
| GroupPack.BitsFor | grib2/g2_pack_gp.c:1241-1254 | the least width that holds every value of a list |
| GroupPack.LeastOf | grib2/g2_pack_gp.c:1350-1358 | the least of a list |
| GroupPack.PackGp | grib2/g2_pack_gp.c:354-1426 | for all missing modes the emitted lengths plus novref cover the field in order, every value within the bounds its width holds and every descriptor within its width; the groups are those of a pass explained as in `SplitOnce`, described with least widths, and reduced as in `Reduce`; both kinds of rerun end, or the same pass is repeated for ever, which takes a minimum length of 1 and fewer group slots than points; there, with single steps, a restart (716) never helps; with ndg > (n-1)/minpk it is never taken and, with single steps, no group is empty |
| Templates.TailFromStatic | grib2/pdstemplates.c:110-288 | the tail of a template is told by its static entries alone |
| Templates.RepAt | grib2/pdstemplates.c:168-178 | each copy of a repeated block has the block's entries |
| Templates.FillTail | grib2/gridtemplates.c:155-180 | the loops that fill a tail of one kind produce the repeated block |
| Templates.FillMembers | grib2/pdstemplates.c:228-261 | the two loops of templates 4.13 and 4.14, over time ranges and members |
| Templates.ExtendTemplate | grib2/pdstemplates.c:144-288 | the tail that readers and builder append to a template is the specified one, for every number |
| TemplateFields.HoldsRange | grib2/drstemplates.h:47-65 | every value of a quantity (a count, a signed number, a latitude or longitude in millionths of a degree) fits the entry for it |
| TemplateFields.HoldsOnly | grib2/drstemplates.h:47-65 | and no other entry of that size, but that longitudes also fit a signed one |
| TemplateFields.ProductAgrees | grib2/pdstemplates.h:52-120 | every product table lists the quantities of its template at their octets, up to the last octet of section 4 |
| TemplateFields.GridAgrees | grib2/gridtemplates.h:52-100 | the same of every grid table but the cross section |
| TemplateFields.GridCrossSection | grib2/gridtemplates.h:96 | the cross section has all entries at their octets, but one latitude unsigned |
| TemplateFields.DataAgrees | grib2/drstemplates.h:47-65 | the same of the tables of section 5 |
| TemplateMeaning.TableAgrees | grib2/gridtemplates.h:52-100 | the three of them together |
| TemplateMeaning.EntryStands | grib2/g2_addfield.c:233-260 | in every section 1, 3, 4 and 5 each entry of head and template reads, at the octets of FM 92, as its value: plain, or sign and magnitude where the quantity may be negative |
| TemplateMeaning.LastLatitude | grib2/gridtemplates.h:96 | the last latitude of a cross section is the one exception, and reads right if and only if it is not south of the equator |
| TemplateMeaning.SensibleStorable | grib2/g2_addgrid.c:189-223 | values that their quantities may take can be stored, tails and lists included, which is what the round trips ask for |
| TemplateMeaning.TailTells | grib2/pdstemplates.c:144-288 | every tail repeats its quantities as often as the entry at the right octet says: members at octet 58 or 54, time ranges seven octets after the interval begins, bands at 14, and so on |
| TemplateMeaning.SectionLength | grib2/g2_addfield.c:279-280 | a section without tail and lists has the length of its template in FM 92 |
| TemplateMeaning.HeadStands | grib2/g2_addlocal.c:123-137 | every section begins with its length in four octets, and its number |
| TemplateMeaning.OctetsStand | grib2/g2_addlocal.c:126-137 | local and packed octets follow as they are |
| TemplateMeaning.MapStands | grib2/g2_addfield.c:437-471 | a bit map has its indicator in octet 6 and one bit for each point from octet 7 on |
| SectionFormat.ListRoundTrip | grib2/g2_unpack5.c:114-133 | signed and unsigned entries of any map are read back, and the rest left |
| SectionFormat.EntryRoundTrip | grib2/g2_unpack5.c:114-133 | one template entry, signed or unsigned, is read back |
| SectionFormat.TemplateRoundTrip | grib2/g2_unpack4.c:98-180 | a template with a tail whose length depends on its own entries is read back whole |
| Sections.HeadRead | grib2/g2_unpack1.c:73-88 | a section's length and number are read back and no other number is found |
| Sections.Read1 | grib2/g2_unpack1.c:63-113 | the identification section is read back |
| Sections.Read2 | grib2/g2_unpack2.c:45-95 | the local section is read back octet for octet |
| Sections.Read3 | grib2/g2_unpack3.c:73-240 | grid definition, template, tail and optional list are read back, the number being that of none when another grid source is given |
| Sections.OptionalRead | grib2/g2_unpack3.c:211-239 | the optional list of numbers is read back, its length told by what is left of the section |
| Sections.Read4 | grib2/g2_unpack4.c:62-214 | product definition, template, tail and coordinate patterns are read back |
| Sections.Read5 | grib2/g2_unpack5.c:57-177 | the data representation section is read back |
| Sections.Read6 | grib2/g2_unpack6.c:52-109 | a bit map is read back, one of no points being an error |
| SectionReader.ReadList | grib2/g2_unpack5.c:114-133 | the entry loop on any octets, with its bounds checks, is the specified reading |
| SectionReader.ReadTemplate | grib2/g2_unpack3.c:116-203 | a template and its tail on any octets, error codes included |
| SectionReader.ReadIdentification | grib2/g2_unpack1.c:63-113 | on any octets, cut off or of another section, every read is bounded and the fields or error code are those of the specification that `Sections.Read1` inverts |
| SectionReader.ReadLocal | grib2/g2_unpack2.c:45-95 | on any octets, cut off or of another section, every read is bounded and the fields or error code are those of the specification that `Sections.Read2` inverts |
| SectionReader.ReadGrid | grib2/g2_unpack3.c:73-240 | on any octets, cut off or of another section, every read is bounded and the fields or error code are those of the specification that `Sections.Read3` inverts |
| SectionReader.ReadOptional | grib2/g2_unpack3.c:211-239 | the optional list on any octets, its length as the section leaves it |
| SectionReader.ReadProduct | grib2/g2_unpack4.c:62-214 | on any octets, cut off or of another section, every read is bounded and the fields or error code are those of the specification that `Sections.Read4` inverts |
| SectionReader.ReadRepresentation | grib2/g2_unpack5.c:57-177 | on any octets, cut off or of another section, every read is bounded and the fields or error code are those of the specification that `Sections.Read5` inverts |
| SectionReader.ReadBitmap | grib2/g2_unpack6.c:52-109 | on any octets, cut off or of another section, every read is bounded and the fields or error code are those of the specification that `Sections.Read6` inverts |
| Message.CallKeepsOrder | grib2/g2_addfield.c:184-201 | every call, accepted or refused, leaves sections in the order 1 [2] 3 (4 5 6 7)+ with repeats from 2, 3 or 4 |
| Message.AnsweredExactly | grib2/g2_addfield.c:140-201 | a call is accepted if and only if the message is not taken for complete, the order of sections lets its first section come next, and its templates are known, its field is packed and there is a bit map to use again; -2, -3 and -4 tell which of the first two fails |
| Message.AddedInOrder | grib2/g2_addgrid.c:134-142 | sections appended where their numbers may follow keep the order |
| Message.Run | grib2/g2_addfield.c:184-201 | after any run of calls the sections are in order |
| Message.CallCounts | grib2/g2_info.c:229-238 | a call adds one field or local section exactly when it is accepted |
| Message.RunCounts | grib2/g2_info.c:229-238 | over any run of calls the numbers of sections 4 and 2 grow by the accepted field and local calls |
| Message.EndedLooksComplete | grib2/g2_gribend.c:104-117 | an ended message passes the test for completeness |
| Message.RunExtends | grib2/g2_addfield.c:203-501 | no call ever changes a section already there |
| SectionWalk.Walk | grib2/g2_addfield.c:150-183 | on any octets on which it ends, the loop over the stored lengths gives the last number, a grid, a reusable bit map, or -3 |
| SectionWalk.WalkedExactly | grib2/g2_addlocal.c:91-110 | -3 if and only if no number of sections, each as long as stored, ends exactly at the stored total |
| SectionWalk.WalksExactly | grib2/g2_addlocal.c:91-110 | the loop ends inside the octets if and only if no section that it has to pass has length 0 |
| SectionWalk.StaysThere | grib2/g2_addlocal.c:91-110 | at a section of length 0 before the total it stays for ever |
| SectionWalk.Check | grib2/g2_addlocal.c:68-110 | on any octets: no message (-1), already complete (-2), lengths that do not add up (-3), or the last section |
| MessageBuilder.BuiltWalk | grib2/g2_addfield.c:150-183 | on a message of the builder the walk ends and finds its last section, a grid and a reusable bit map; behind an ended message it goes too far |
| MessageBuilder.BuiltRefused | grib2/g2_addlocal.c:68-119 | on a message of the builder the checks of each routine answer as the state machine does |
| MessageBuilder.BuiltReady | grib2/g2_addlocal.c:68-119 | a message of the builder with room behind it meets what each routine asks of its caller |
| MessageBuilder.BuiltField | grib2/g2_addfield.c:186-201 | after a section 3 or 7 of the builder there is a grid, so its error -6 cannot occur |
| MessageBuilder.BeginSection | grib2/g2_addlocal.c:123-125 | room for the length and the number of a new section |
| MessageBuilder.EndSection | grib2/g2_addlocal.c:136-137 | the length patched in makes it the section's bits |
| MessageBuilder.Account | grib2/g2_addlocal.c:142-143 | the total patched in makes it the message with the sections added |
| MessageBuilder.AppendTemplate | grib2/g2_addgrid.c:189-223 | template entries and their tail are laid down by the full map |
| MessageBuilder.Create | grib2/g2_create.c:66-127 | sections 0 and 1 for edition 2, an error and no change otherwise |
| MessageBuilder.AddLocalSection | grib2/g2_addlocal.c:51-147 | on any octets the refusals are those of the checks (-1 to -4) and nothing is written; on a message of the builder it returns what the state machine answers, accepting exactly as `Message.AnsweredExactly` says, and leaves the octets of the message it names |
| MessageBuilder.AddGridSection | grib2/g2_addgrid.c:73-250 | the same for section 3 with template, tail and optional list, also when the template is unknown and octets behind the message were written |
| MessageBuilder.GridRest | grib2/g2_addgrid.c:165-234 | template and optional list, as the section's body has them |
| MessageBuilder.AddFieldSections | grib2/g2_addfield.c:103-503 | the same for sections 4 to 7 and all error returns, -6 on octets without a section 3 included |
| MessageBuilder.CountPoints | grib2/g2_addfield.c:296-306 | the number of points kept by the bit map, all without one |
| MessageBuilder.LayField | grib2/g2_addfield.c:402-492 | sections 5 to 7 one after another, or the refusal for a bit map to be reused |
| MessageBuilder.LayData | grib2/g2_addfield.c:476-492 | section 7 with the packed octets |
| MessageBuilder.LayBitmap | grib2/g2_addfield.c:437-471 | section 6, refused exactly when a bit map is to be reused and there is none |
| MessageBuilder.LayRepresentation | grib2/g2_addfield.c:402-432 | section 5 with the number of points and the filled-in template |
| MessageBuilder.LayProduct | grib2/g2_addfield.c:203-280 | section 4, or an unknown template with only octets behind the message written |
| MessageBuilder.AddEnd | grib2/g2_gribend.c:48-121 | the same for the end section; ending twice is refused |
| MessageBuilder.GridBefore | grib2/g2_addfield.c:191-201 | a section numbered 3 or more is never reached without a section 3, so that error is dead |
| MessageBuilder.Contract | grib2/g2_addfield.c:296-302 | the data at the 1s of the bit map, in order |
| MessageBuilder.RefusedUnfinished | grib2/g2_addlocal.c:81-86 | a message never ended is refused as complete when its last section ends in "7777" |
| MessageReader.FindGrib | grib2/g2_getfld.c:280-295 | the first "GRIB" in the first hundred octets |
| MessageReader.TakeSection | grib2/g2_getfld.c:369-530 | one section's effect on the record, errors included |
| MessageReader.UnpackData | grib2/g2_getfld.c:497-530 | the data and, on request, their expansion over the grid, or error 14 |
| MessageReader.IsEnd | grib2/g2_getfld.c:334-335 | the next four octets are "7777" |
| MessageReader.OneStep | grib2/g2_getfld.c:328-553 | one trip of the loop: end, error, found, or on to the next section |
| MessageReader.ExpandField | grib2/g2_getfld.c:508-512 | the data spread over the points of the grid by the bit map |
| MessageReader.GetFld | grib2/g2_getfld.c:237-566 | on any octets on which the walk ends (exactly those of `MessageWalk.EndsExactly`), the result is that of the specified loop, section 7 unpacked for templates 5.0, 5.2 and 5.3 |
| MessageWalk.Ending | grib2/g2_getfld.c:327-554 | from any state the loop ends, within a stated number of trips, or never does, as `Halts` tells from the sections it reaches |
| MessageWalk.EndsExactly | grib2/g2_getfld.c:237-566 | the routine ends on given octets if and only if `Ends` holds of them |
| MessageWalk.NoneEmptyHalts | grib2/g2_getfld.c:327-554 | it ends when no section it can reach has length 0 |
| MessageWalk.Counted | grib2/g2_getfld.c:422-440 | at a section 4 of length 0 the number of fields grows with every trip, and the loop ends when it reaches the one asked for if that section cannot be read or was all that was missing |
| MessageWalk.TakenAgain | grib2/g2_getfld.c:369-530 | taking the same section twice changes nothing more |
| MessageWalk.Stuck | grib2/g2_getfld.c:327-554 | a section of length 0 that is taken and not counted holds the loop for ever |
| MessageWalk.EmptyIdentification | grib2/g2_getfld.c:369-380 | a section 1 of length 0 is such a section |
| MessageWalk.EndlessIsRead | grib2/g2_getfld.c:327-554 | 37 octets on which the routine never ends, whichever field is asked for |
| MessageAgreement.FieldIsRead | grib2/g2_getfld.c:327-554 | asked for a field of a built message, the reader returns its product and representation templates, the latest grid and local section before it, its bit map or the one in force, and its data, expanded over the grid on request |
| MessageAgreement.ReadExactly | grib2/g2_getfld.c:457-554 | a field is read if and only if no section 6 up to its own has indicator 254 with no bit map in force; otherwise the error is 17 |
| MessageAgreement.DanglingIsTold | grib2/g2_getfld.c:470-477 | such a section 6 stops the walk with 17 for every later field |
| MessageAgreement.MapInForce | grib2/g2_getfld.c:462-485 | the bit map kept is that of the latest section 6 of indicator other than 254, if that is 0 |
| MessageAgreement.DanglingIs | grib2/g2_getfld.c:470-477 | indicator 254 fails exactly when no bit map is kept |
| MessageAgreement.AcceptedButUnread | grib2/g2_addfield.c:166-169 | the builder accepts such a field as soon as any bit map occurs earlier, and the reader then refuses it |
| MessageCases.MapLost | grib2/g2_getfld.c:470-477 | a message of three fields with indicators 0, 255 and 254: the third is accepted and cannot be read |
| MessageAgreement.HeaderIsRead | grib2/g2_getfld.c:327-554 | without unpacking the reader returns the field's templates, the latest grid and local section |
| MessageAgreement.IndicatorReturned | grib2/g2_getfld.c:486-491 | the bit-map indicator then returned is the field's own if and only if it is the first field or the one before has the same |
| MessageCases.IndicatorLost | grib2/g2_getfld.c:486-491 | a message of two fields whose second has indicator 0 and is returned with 255 |
| MessageAgreement.TakeOther | grib2/g2_getfld.c:369-530 | reading a section of a field not asked for updates grid, local section and bit map only, with error 17 exactly for a bit map to be used again when none is in force |
| MessageAgreement.HeaderTrips | grib2/g2_getfld.c:327-456 | two trips over sections 4 and 5 of the field asked for; without unpacking the reader stops there if any section 6 came before |
| MessageAgreement.PlainTrips | grib2/g2_getfld.c:486-554 | otherwise the third, over its own section 6, returns it |
| MessageAgreement.FieldTrips | grib2/g2_getfld.c:327-554 | four trips over a field asked for return its record |
| MessageAgreement.MissingIsTold | grib2/g2_getfld.c:556-564 | asked for more fields than a finished message has, the reader returns 17 if some section 6 wants a bit map that is not in force and data are unpacked, 6 otherwise |
| MessageAgreement.FieldFollows | grib2/g2_addfield.c:203-501 | a section 4 is always followed by its sections 5, 6 and 7 |
| MessageAgreement.NthField | grib2/g2_addfield.c:203-501 | the n-th field of a built message is the one given by the n-th accepted call |
| MessageAgreement.RunIsRead | grib2/g2_getfld.c:327-554 | after any run of the builder, reading field n, with data or without, yields what the n-th accepted call was given |
| MessageAgreement.FieldReturned | grib2/g2_getfld.c:237-566 | both kinds of request in one statement |
| MessageAgreement.GetBuiltField | grib2/g2_getfld.c:237-566 | the same of the octet array the builder left |
| MessageAgreement.ExpandContracted | grib2/g2_getfld.c:505-520 | contracting by a bit map and expanding over no more points restores the data at its 1s and gives 0 elsewhere |
| DataSection.PatternOfFloat | grib2/compack.c:396-396 | the pattern made of a reference that is a 32-bit float stands for it |
| DataSection.PackSimply | grib2/simpack.c:60-181 | what `simpack` leaves in its template and octets, the reference as a 32-bit pattern |
| DataSection.PackComplexly | grib2/misspack.c:84-529 | what `compack` or `misspack` leaves in its template and octets, the reference as a 32-bit pattern |
| DataSection.EntriesRead | grib2/comunpack.c:71-127 | the decoder takes from the template entries the description and missing values that were put there |
| DataSection.UnpackSection | grib2/g2_unpack7.c:76-157 | `g2_unpack7` on any octets for templates 5.0, 5.2 and 5.3, over `simunpack` and `comunpack` on the rest of the buffer |
| DataSection.RoundingBound | grib2/mkieee.c:90-112 | the rounding of the reference moves the data by at most half a unit of its last place, unscaled, in the normal range without a lost carry |
| DataSection.SimplyRead | grib2/g2_unpack7.c:108-112 | `g2_unpack7` for template 5.0, whatever follows section 7: data to within half a step and the rounding of the reference if their range can be restored; if and only if, to within half a step, when the reference is a 32-bit float |
| DataSection.ComplexlyRead | grib2/g2_unpack7.c:113-118 | the same for templates 5.2 and 5.3, for fields not of secondary missing points alone; the exact condition also holds of fields without data, whatever the reference |
| DataAgreement.FieldUnpacks | grib2/g2_unpack7.c:76-157 | the four sections of a field unpack to its points, wherever they stand |
| DataAgreement.FieldGot | grib2/g2_getfld.c:237-566 | of a message that can be read, the field at any section is returned with the values it was given |
| DataAgreement.ExpandedBack | grib2/g2_getfld.c:505-520 | spread over the bit map, the field is right on the grid if and only if the grid has as many points as the field and the packed points are right |
| DataAgreement.ValuesComeBack | grib2/g2_getfld.c:237-566 | after any run of the builder, the values that field n returns are those given to the n-th accepted `g2_addfield`, within half a step and the rounding of the reference at data and exactly at missing points, on the grid or packed, if the range packed simply can be restored, or the field packed complexly is not one of secondary missing points alone, and the grid has room for just them; if and only if, to within half a step, when the reference is a 32-bit float or there are no data |
| FieldTrip.PackPoints | grib2/g2_addfield.c:307-313 | packing into the buffer that is allocated, simply or complexly |
| FieldTrip.RoomIsEnough | grib2/g2_addfield.c:402-492 | the room that a field takes at most, told before packing |
| FieldTrip.EndAndGet | grib2/g2_gribend.c:48-121 | a message ended and then read: the reader ends, and its result is that of the specified loop on the octets of the message |
| FieldTrip.JustAdded | grib2/g2_getfld.c:237-566 | the field just added is the one that is got back, with its values |
| FieldTrip.AddAndGet | grib2/g2_addfield.c:103-503 | reals packed, added with `g2_addfield`, the message ended with `g2_gribend` and the field got with `g2_getfld`, all on octets: refused as the state machine says, or the values given come back as in `DataAgreement.ValuesComeBack` |
| MessageInfo.ByteBuf.constructor | grib2/ByteBuf.c:29-37 | a buffer with the cursor at its start |
| MessageInfo.ByteBuf.Skip | grib2/ByteBuf.c:97-109 | the cursor moves, or stays and an error is returned |
| MessageInfo.ByteBuf.SetCursor | grib2/ByteBuf.c:294-304 | the cursor set, or an error and no move |
| MessageInfo.ByteBuf.Remaining | grib2/ByteBuf.c:81-85 | cursor and remaining octets make up the buffer |
| MessageInfo.ByteBuf.GetInt | grib2/ByteBuf.c:122-139 | the next octets as an integer, or an error and no move |
| MessageInfo.ByteBuf.GetInts | grib2/ByteBuf.c:154-177 | several integers, or an error and no move |
| MessageInfo.ByteBuf.Find | grib2/ByteBuf.c:235-268 | the first position not beyond its number of matching characters, which is what the code compares, not what its documentation says |
| MessageInfo.FoundAtStart | grib2/ByteBuf.c:219-268 | at the start of a buffer the answer is the documented one if and only if the characters stand there or have no room |
| MessageInfo.FoundBetween | grib2/ByteBuf.c:219-268 | elsewhere if and only if they first stand no further from the start than their number, or nowhere, and no position before has as many matching characters as its index |
| MessageInfo.NothingBehind | grib2/ByteBuf.c:254-265 | from a position beyond the number of characters on, nothing is ever found |
| MessageInfo.BeginningIgnored | grib2/g2_info.c:94-97 | so `g2_info` answers the same whatever the first four octets are |
| MessageInfo.UnmarkedIsAccepted | grib2/g2_info.c:94-97 | and accepts every finished message with any octets in place of "GRIB" |
| MessageCases.UnmarkedAccepted | grib2/g2_info.c:94-97 | a message of two fields that starts with four zeros and is accepted |
| MessageInfo.CountMatching | grib2/ByteBuf.c:256-260 | how many characters match before the first that does not |
| MessageInfo.ReadInts | grib2/g2_info.c:168-174 | the entries of section 1, or an error when the octets run out |
| MessageInfo.ReadRest | grib2/g2_info.c:188-258 | the walk over the remaining sections ends, with its counts or its error |
| MessageInfo.GetInfo | grib2/g2_info.c:80-260 | on any octets, the verdict and the counts are the specified ones |
| MessageInfo.FinishedIsAccepted | grib2/g2_info.c:94-258 | a finished message of exactly its own length is accepted with the right numbers of fields and local sections |
| MessageLayout.AcceptedExactly | grib2/g2_info.c:80-258 | octets are accepted if and only if they are laid out as a message: edition 2, no more octets announced than there are, section 1 after section 0, and sections 2 to 7 end to end up to the end, or to "7777" and then the end |
| MessageLayout.AcceptedReports | grib2/g2_info.c:80-258 | discipline and length announced, and the numbers of sections 2 and 4 so laid out |
| MessageLayout.ChainWalked | grib2/g2_info.c:188-258 | sections laid end to end are walked to the end and counted |
| MessageLayout.WalkIsChain | grib2/g2_info.c:188-258 | a walk that finds no fault is along such sections |
| MessageLayout.BeginningRefused | grib2/g2_info.c:118-126 | no proper beginning of a message is accepted |
| MessageInfo.RestFrom | grib2/g2_info.c:188-258 | from any section of a finished message the walk counts the sections still ahead |
| MessageInfo.GetBuiltInfo | grib2/g2_info.c:80-260 | the same of the octet array the builder left |
| MessageInfo.RunIsCounted | grib2/g2_info.c:80-260 | after `g2_create` and any run that ends the message, `g2_info` returns the numbers of accepted field and local calls |
| MessageInfo.AcceptedEnds | grib2/g2_info.c:188-258 | on octets that start with "GRIB" and that `g2_info` accepts, `g2_getfld` always ends |
| ParameterSearch.Searcher.constructor | gempak/gb2skvar.c:112-112 | no row of the right triple met yet |
| ParameterSearch.Searcher.Compare | gempak/gb2skvar.c:21-56 | the lexicographic order, with the last row of the right triple remembered |
| ParameterSearch.Searcher.Search | gempak/gb2skvar.c:112-115 | for any choice of the element compared with, the exact row is found or the remembered row is next to the insertion point |
| ParameterSearch.Between | gempak/gb2skvar.c:100-104 | rows of one triple stand together in a sorted table |
| ParameterSearch.NeighbourHasTriple | gempak/gb2skvar.c:117-132 | if any row has the triple, one next to the insertion point has |
| ParameterSearch.FindParameter | gempak/gb2skvar.c:58-146 | 0 if and only if the exact row exists, -1 if and only if no row has the triple; otherwise the row just before (-2) or after (-3) where the key belongs |
| ScanOrder.Orient | gempak/gb2ornt.c:28-121 | for all 16 modes and every grid size, the output is the grid read left to right from the bottom row, and a permutation of the input |
| ScanOrder.CopyToggled | gempak/gb2ornt.c:85-92 | the same with the index toggled from column to column |
| ScanOrder.CopyRow | gempak/gb2ornt.c:75-79 | one output row copied leaves the rows before it right |
| ScanOrder.ToggledColumns | gempak/gb2ornt.c:82-94 | alternating columns, the start turned round for an even number of columns from the right |
| ScanOrder.Rows | gempak/gb2ornt.c:72-116 | rows scanned in one direction or alternating, the start turned round for an even number of rows from the top |
| ScanOrder.Columns | gempak/gb2ornt.c:62-71 | columns scanned all in one direction |
| ScanOrder.InputIsPlaced | gempak/gb2ornt.c:61-116 | every input point ends up where Flag Table 3.4 places it |
| ScanOrder.TargetSource | gempak/gb2ornt.c:61-116 | the places of the table and the indices of the loops are inverse to each other |
| ScanOrder.SourceTarget | gempak/gb2ornt.c:61-116 | the inverse the other way round |
| ScanOrder.ScanPlace | gempak/gb2ornt.c:39-42 | the scan of a place in Flag Table 3.4 is the scan line and position it came from |
| ScanOrder.PlaceScan | gempak/gb2ornt.c:39-42 | the place of a scan line and position is the grid point it came from |
| ScanOrder.RearrangedMultiset | gempak/gb2ornt.c:61-116 | an injective rearrangement keeps the multiset of values |
| ScanOrder.OrientedIsPermutation | gempak/gb2ornt.c:61-116 | an oriented grid is a permutation of its input |
| Calendar.WholeYear | gempak/tidaym.c:3-33 | the months of a year add up to 365 or 366 days |
| Calendar.DaysIn | gempak/tidaym.c:3-33 | 30 days and one more in every other month, counted anew from August; February 28, 29 in leap years |
| Calendar.GregorianYears | gempak/tidaym.c:3-33 | years add up with one day more every fourth, but not every hundredth, and yet every four hundredth |
| Calendar.DayOfYear | gempak/tiitoj.c:5-26 | the day of the year |
| Calendar.MinutesBetween | gempak/timdif.c:5-52 | the difference of two minute counts, hence antisymmetric and additive, or -12 for a negative year |
| Calendar.DaysBetween | gempak/timdif.c:28-45 | the days of the years from one to another, leap years counted |
| Calendar.AddMinutes | gempak/tiaddm.c:5-90 | the date m minutes later, its year cut to two digits if it came so; each error code exactly when its check fails, the output then untouched |
| Calendar.LaterCounts | gempak/tiaddm.c:44-79 | carrying minutes and hours and stepping days gives a valid date exactly m minutes later |
| Calendar.NextDayCounts | gempak/tiaddm.c:65-78 | the next day is valid and one day later, across months and years |
| Calendar.LaterTwice | gempak/tiaddm.c:44-79 | additions compose |
| Calendar.LaterZero | gempak/tiaddm.c:44-79 | no minutes later is the same date |
| Calendar.SameMinute | gempak/timdif.c:47-50 | a minute count determines its valid date |
| Calendar.DifferenceUndoesAddition | gempak/tiaddm.c:81-87 | difference undoes addition if and only if a two-digit year does not run past 99, told from the date and the minutes given |
| Calendar.BeforeCentury | gempak/tiaddm.c:81-87 | a date is before year 100 exactly if its minute count is |
| Calendar.CenturyEnds | gempak/tiaddm.c:81-87 | it fails at the end of year 99 |
| Calendar.Units | gempak/gb2fcsm.c:28-56 | units of time against each other: an hour is 60 minutes, a day 24 hours, units 10, 11 and 12 are 3, 6 and 12 hours, seconds are cut to minutes, other units give 0 |
| TemplateMeaning.EndOfInterval | gempak/gb2ftim.c:99-118 | the end of the interval is taken from the octets of templates 4.8 to 4.14 where FM 92 has it, unit and forecast time from octets 18 and 19 |
| Calendar.ForecastTime | gempak/gb2ftim.c:40-142 | for interval templates the forecast end in minutes is the start offset plus the accumulation if and only if the offset is not negative |
| Powers.IntPower | grib2/int_power.c:11-29 | square and multiply equals repeated multiplication for every exponent, negative ones of a base other than 0 |
| Powers.PowSquare | grib2/int_power.c:21-27 | one squaring step |
| Ieee.LeadingBit | grib2/mkieee.c:77-88 | the exponent search ends at the leading power of two of every positive real |
| Ieee.TwoTo | grib2/int_power.c:11-29 | 2 to any signed power |
| Ieee.Rint | grib2/mkieee.c:104-104 | an integer nearest to a real |
| Ieee.MakeAll | grib2/mkieee.c:53-117 | the pattern made of each value |
| Ieee.MakeIeee | grib2/mkieee.c:55-115 | the pattern made of one value |
| Ieee.ReadAll | grib2/g2_rdieee.c:49-76 | the value of each pattern, normal, subnormal or standing in for infinity |
| Ieee.PatternRoundTrip | grib2/mkieee.c:53-117 | making a pattern of the value read gives the pattern back if and only if it is finite and not negative zero |
| Ieee.NormalFields | grib2/mkieee.c:90-107 | the value of a normal pattern gives its exponent and mantissa back |
| Ieee.SubnormalFields | grib2/mkieee.c:90-107 | so does that of a subnormal one, through the branch for exponent 0 |
| Ieee.InfiniteIsLost | grib2/g2_rdieee.c:72-73 | a pattern of infinity or no number never comes back |
| Ieee.PatternIsWord | grib2/mkieee.c:53-117 | the pattern made of any real takes 32 bits |
| Ieee.PatternNear | grib2/mkieee.c:90-112 | in the normal range it stands for a value within half a unit of the last place if and only if no carry out of the mantissa is lost in the bitwise or |
| Ieee.CarryFar | grib2/mkieee.c:104-112 | when the carry is lost the value is off by more than that |
| SimplePacking.CodesFit | grib2/simpack.c:97-140 | when width or scale is left to the routine every code fits the width |
| SimplePacking.CodeIsNearest | grib2/simpack.c:109-151 | in all four branches the code is within half of the scaled value |
| SimplePacking.WithinHalfStep | grib2/simunpack.c:77-79 | an integer nearest to the scaled value is unpacked to within half a step |
| SimplePacking.FindScale | grib2/simpack.c:119-121 | the least binary scale at which the range fits the width |
| SimplePacking.Extremes | grib2/simpack.c:78-83 | least and greatest value |
| SimplePacking.Settle | grib2/simpack.c:97-152 | reference, scale and width of the four branches |
| SimplePacking.Simpack | grib2/simpack.c:69-180 | the octets hold the codes under the settled scaling, padded; a width from 1 to 31 is used as given and otherwise is the least that holds every code; a constant field takes no octets |
| SimplePacking.Simunpack | grib2/simunpack.c:55-88 | each value is its code unscaled, the error exactly when the octets are too few |
| SimplePacking.CodesRead | grib2/simunpack.c:71-79 | the codes are read back modulo 2^width, whatever octets follow |
| SimplePacking.PointRestored | grib2/simunpack.c:77-79 | a point comes back within half a step if and only if its code fits the width |
| SimplePacking.FieldRestored | grib2/simpack.c:97-164 | so does the field if and only if its greatest code fits, or the flat reference is near enough |
| SimplePacking.FlatUnscaled | grib2/simpack.c:97-140 | a range that rounds to nothing is harmless without decimal scaling |
| SimplePacking.FlatScaled | grib2/simpack.c:102-107 | with decimals kept and no binary scale it is harmless if and only if the least value rounds to 0 |
| SimplePacking.FlatShrunk | grib2/simpack.c:102-107 | with tens dropped and no binary scale it is harmless if and only if the least value rounds to 0, or to 1 or -1 with the extremes close enough |
| SimplePacking.FlatMoved | grib2/simpack.c:97-107 | with both scales it is harmless if and only if the least value left scaled is within half a step of itself, or of the greatest, on the side that the scaling moves it to |
| SimplePacking.SimpleShifted | grib2/simunpack.c:55-88 | with another reference every value moves by its distance at most |
| SimplePacking.SimpleRestored | grib2/simunpack.c:55-88 | what was packed simply comes back, exactly if constant and otherwise within half a step if and only if it can, whatever octets follow |
| SimplePacking.PackThenUnpack | grib2/simpack.c:60-181 | a constant field comes back exactly; any other comes back within half a step 0.5 * 2^E * 10^-D at every point if and only if the width came to more than 0 and holds the greatest code, or came to 0 and the stored reference is that near to the extremes; in all four branches |
| SimplePacking.NoSpread | grib2/simpack.c:102-106 | the property fails for values from 10.0 to 10.01 packed with one decimal: they come back multiplied by 10 |

## Left out
- JPEG2000, PNG and spectral packing, which wrap other libraries or floating powers.
- Map projections, table and file reading, string and name handling, and the other programs of the repository.
- Rounding of computed values to 32-bit floats: reals are exact. The rounding of a reference when it is stored as a pattern is modelled, and carried to what comes back.
- Integer overflow beyond the widths stated.
- Powers.IntPower: a negative power of 0, a division by 0.
- ComplexDecoder.Comunpack: fewer points than the differencing order, where the original writes behind its array, and missing options beyond 2, where it leaves its output untouched and, with differencing, uses a count never set.
- ComplexDecoder.UnpackGroups: the same.
- ComplexPacking.PackField: residuals below 2^30 - 2, the limit beyond which the group search reports an error that its callers ignore; fields longer than the differencing order; the room that `PackingRoom` bounds.
- ComplexPacking.PackAndUnpack: the same.
- ComplexPacking.FindGroups: the same.
- ComplexPacking.GroupLengths: ranges that 30 bits hold.
- ComplexScaling.PackReals: the same fields; an order other than 1 and 2, which the original replaces by 1; with no data and no binary scale, the conversion of the scaled 1E37 to an integer, which no integer of the original holds.
- ComplexScaling.UnpackReals: what `ComplexDecoder.Comunpack` leaves out.
- ComplexScaling.PackAndUnpackReals: what `ComplexScaling.PackReals` leaves out.
- FieldTrip.AddAndGet: the same, and what `PackingRoom.PackAllocated` leaves out.
- GroupReduce.Search: a search that runs out without a decision (the index 0 in the code) is taken as "no split".
- SectionReader.ReadLocal: a length below 5, a negative size to allocate in the original, is read as no octets.
- MessageBuilder.AddLocalSection: octets that pass all checks are a message of the builder; the checks themselves are modelled on any octets.
- MessageBuilder.AddGridSection: the same.
- MessageBuilder.AddEnd: the same.
- MessageBuilder.AddFieldSections: the same; what packing the data came to, and the template entries it filled in, are parameters, which `FieldTrip` instantiates; messages stay below 2^28 octets, so that bit offsets fit 32 bits.
- MessageReader.GetFld: unpacking section 7 for templates other than 5.0, 5.2 and 5.3 is a parameter.
- MessageReader.TakeSection: the same.
- MessageReader.UnpackData: the same.
- MessageReader.OneStep: the same.
- MessageReader.ExpandField: a bit map shorter than the grid, and data shorter than its count of 1s, are extended by 0 where the original reads on.
- MessageAgreement.FieldIsRead: messages at the start of the buffer; new bit maps as long as their grid has points.
- DataAgreement.ValuesComeBack: the same; a bit map used again has to be the one that the points were chosen by.
- DataSection.UnpackSection: fewer points than the differencing order, and missing options beyond 2, are an error.
- PackingRoom.PackAllocated: residuals from 2^25 - 2 and header values from 2^31 on, for which the buffer allocated need not be enough.
- SectionWalk.Walk: octets on which the original loops for ever or reads outside the buffer; `SectionWalk.WalksExactly` says which.
- SectionWalk.Check: the same.
- MessageInfo.ByteBuf.Find: away from the start of the buffer, a search whose bound is negative and wraps.
- Templates.TailFromStatic: templates 4.13 and 4.14 with no time range give a tail of the length that the code computes.
- Calendar.ForecastTime: the date string itself.
- SimplePacking.Simpack: a width that comes to 0 is taken to store nothing.
