/** The end of an RX/TX log line: the summary, or the XML dump when that is switched on. */
module FrameLog {
  import opened Bytes
  import opened FrameDecoder
  import opened CStrings
  import opened NameTables
  import opened Summary
  import opened XmlDump
  import SummaryPrinter
  import XmlPrinter

  method LogBacnetFrame(names: Names, frame: seq<byte>, xmlFrameLogging: bool) returns (line: string)
    requires names.Valid() && |frame| <= 0xFFFF
    ensures line == if xmlFrameLogging then DumpText(names, frame)
                    else " - " + BoundedText(names, Decode(frame), LOG_BUFFER) + "\n"
  {
    hide Decode;
    hide BoundedText;
    hide DumpText;
    if xmlFrameLogging {
      line := XmlPrinter.PrintFrameAsXml(names, frame);
      return;
    }
    var summary := new char[LOG_BUFFER];
    SummaryPrinter.SummarizeBacnetFrame(names, frame, summary);
    var length := StrLen(summary, BoundedText(names, Decode(frame), LOG_BUFFER));
    line := " - " + summary[..length] + "\n";
  }
}
