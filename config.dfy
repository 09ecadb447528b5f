/** The node's immutable configuration. Durations are whole seconds. */
module Config {

  datatype Config = Config(
    zookeeperServers: seq<string>,
    leaderTimeout: int,
    attempterTimeout: int,
    fileDir: string,
    storageCapacity: int)
}
