/** The account data the gateway and the REST calls deliver, decoded. detail stands for the fields nothing here looks at. */
module Types {
  import opened Bytes
  import opened Wrappers

  const FRIEND: int := 1
  const TEXT_CHANNEL: int := 0
  const DM_CHANNEL: int := 1

  datatype User = User(id: Str, username: Str, discriminator: Str, detail: Str) {
    function Tag(): Str {
      if discriminator == [] then username else username + [0x23] + discriminator
    }
  }

  const NOBODY := User([], [], [], [])

  datatype Relationship = Relationship(id: Str, kind: int, user: User, detail: Str)

  datatype Channel = Channel(id: Str, guildId: Str, kind: int, name: Str, recipients: seq<User>, detail: Str)

  // channels is None for a list the sender left out (a nil slice in the program).
  datatype Guild = Guild(id: Str, name: Str, ownerId: Str, channels: Option<seq<Channel>>, unavailable: bool) {
    function Channels(): seq<Channel> {
      channels.GetOr([])
    }
  }

  const NO_GUILD := Guild([], [], [], None, false)
}
