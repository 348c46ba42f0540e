/** The wire message of the chat (module3/07/chat.h) and the string copy of its helpers. */
module ChatMessages {
  import opened Bytes

  const BUFFER_SIZE := 4096
  const MAX_NICKNAME := 50
  const MAX_FILENAME := 256
  const MAX_CLIENTS := 100

  datatype Kind =
    | MsgJoin | MsgLeave | MsgChat | MsgFile | MsgFileData | MsgFileEnd | MsgFileList | MsgFileGet | MsgFileInfo

  /** `text` and `data` are two readings of the one buffer: text for the talking kinds, bytes
      for the file kinds. The field `data_len` is the length of `data`. */
  datatype Message = Message(kind: Kind, nickname: string, text: string, data: seq<Byte>,
                             totalSize: int, filename: string)

  predicate FileKind(kind: Kind) {
    kind.MsgFile? || kind.MsgFileData? || kind.MsgFileEnd?
  }

  /** `safe_strcpy`: at most `size - 1` characters are copied. */
  function SafeCopy(s: string, size: nat): string
    requires size > 0
  {
    if |s| < size then s else s[..size - 1]
  }

  /** The announcements the server makes itself. */
  function JoinMessage(nickname: string): Message {
    Message(MsgJoin, SafeCopy(nickname, MAX_NICKNAME), "[" + nickname + "] joined the chat", [], 0, "")
  }

  function LeaveMessage(nickname: string): Message {
    Message(MsgLeave, SafeCopy(nickname, MAX_NICKNAME), "[" + nickname + "] left the chat", [], 0, "")
  }
}
